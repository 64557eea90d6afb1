/** The wake gate of scripts/memoria_heartbeat_gate.py: two watermarks over two append-only logs.

    A check wakes the agent when a log has a counted row in front of its watermark, and shows it the window. Only the
    agent's `--mark-seen` call at the end of its turn moves the watermarks: the one of its own tool calls to the
    current end, the one of the conversation no further than the agent says it has looked. */
module WakeGate {
  import opened Options
  import opened Strings

  const AGENT: string := "picard"
  const OWN_CALL: string := "memoria_heartbeat_gate.py --mark-seen"

  datatype Row =
    | Conversation(id: nat, agent: string, direction: string)
    | ToolCall(id: nat, agent: string, summary: Option<string>)

  /** One character under SQLite's LIKE: `_` stands for any, letters match in either case. */
  predicate LikeChar(p: char, c: char) { p == '_' || LowerChar(p) == LowerChar(c) }

  predicate LikeAt(s: string, k: nat) {
    k + |OWN_CALL| <= |s| && forall j :: 0 <= j < |OWN_CALL| ==> LikeChar(OWN_CALL[j], s[k + j])
  }

  predicate OwnMarkSeen(summary: Option<string>) {
    summary.Some? && exists k: nat :: k <= |summary.value| && LikeAt(summary.value, k)
  }

  /** The rows the gate counts: the agent's inbound messages, and its tool calls but for this script's own. */
  predicate Counted(r: Row) {
    r.agent == AGENT && if r.Conversation? then r.direction == "in" else !OwnMarkSeen(r.summary)
  }

  function Larger(a: int, b: int): int { if a < b then b else a }

  function Smaller(a: int, b: int): int { if a < b then a else b }

  /** The highest counted id, 0 when there is none. */
  function MaxId(rows: seq<Row>): nat {
    if rows == [] then 0
    else
      var before, last := MaxId(rows[..|rows| - 1]), rows[|rows| - 1];
      if Counted(last) then Larger(before, last.id) else before
  }

  /** How many counted rows lie in front of `since`. */
  function CountNew(rows: seq<Row>, since: int): nat {
    if rows == [] then 0
    else
      var last := rows[|rows| - 1];
      CountNew(rows[..|rows| - 1], since) + if Counted(last) && last.id > since then 1 else 0
  }

  // ---- the marker file ----

  /** What the marker file holds: an object, the bare id of its first format, or anything else. */
  datatype MarkerFile = Missing | Object(conv: Option<int>, tool: Option<int>) | Bare(id: int) | Unreadable

  datatype Markers = Markers(conv: int, tool: int)

  function OrZero(v: Option<int>): int { if v.Some? then v.value else 0 }

  function ReadMarkers(f: MarkerFile): Markers {
    match f
    case Object(conv, tool) => Markers(OrZero(conv), OrZero(tool))
    case Bare(id) => Markers(id, 0)
    case _ => Markers(0, 0)
  }

  // ---- what the two operations compute ----

  datatype Wake = Wake(seen: Markers, maxima: Markers, convNew: nat, toolNew: nat)

  function Maxima(conv: seq<Row>, tool: seq<Row>): Markers { Markers(MaxId(conv), MaxId(tool)) }

  function SeenUpTo(seen: Markers, maxima: Markers, upto: int): Markers {
    Markers(Larger(seen.conv, Smaller(upto, maxima.conv)), maxima.tool)
  }

  predicate Silent(conv: seq<Row>, tool: seq<Row>, f: MarkerFile) {
    var seen, maxima := ReadMarkers(f), Maxima(conv, tool);
    maxima.conv <= seen.conv && maxima.tool <= seen.tool
  }

  function Window(conv: seq<Row>, tool: seq<Row>, f: MarkerFile): Wake {
    var seen := ReadMarkers(f);
    Wake(seen, Maxima(conv, tool), CountNew(conv, seen.conv), CountNew(tool, seen.tool))
  }

  // ---- what the queries say ----

  lemma {:induction false} MaxIsHighest(rows: seq<Row>)
    ensures forall k :: 0 <= k < |rows| && Counted(rows[k]) ==> rows[k].id <= MaxId(rows)
    ensures MaxId(rows) == 0 || exists k :: 0 <= k < |rows| && Counted(rows[k]) && rows[k].id == MaxId(rows)
  {
    if rows != [] { MaxIsHighest(rows[..|rows| - 1]); }
  }

  lemma {:induction false} NoneNew(rows: seq<Row>, since: int)
    ensures CountNew(rows, since) == 0 <==> forall k :: 0 <= k < |rows| && Counted(rows[k]) ==> rows[k].id <= since
  {
    if rows != [] { NoneNew(rows[..|rows| - 1], since); }
  }

  /** A log has nothing new exactly when its maximum does not pass a watermark that is not negative. */
  lemma QuietLog(rows: seq<Row>, since: int)
    ensures MaxId(rows) <= since <==> since >= 0 && CountNew(rows, since) == 0
  {
    hide Counted;
    MaxIsHighest(rows);
    NoneNew(rows, since);
  }

  /** A check stays silent exactly when both counts it would show are zero (and no watermark is negative). */
  lemma {:induction false} SilentExactly(conv: seq<Row>, tool: seq<Row>, f: MarkerFile)
    ensures var w := Window(conv, tool, f);
            Silent(conv, tool, f) <==> w.seen.conv >= 0 && w.seen.tool >= 0 && w.convNew == 0 && w.toolNew == 0
  {
    QuietLog(conv, ReadMarkers(f).conv);
    QuietLog(tool, ReadMarkers(f).tool);
  }

  // ---- on the rows' own fields ----

  /** A text that LIKE takes for this pattern of the same length. */
  predicate Spells(s: string, pattern: string) {
    |s| == |pattern|
    && forall j :: 0 <= j < |s| ==> pattern[j] == '_' || LowerChar(s[j]) == LowerChar(pattern[j])
  }

  /** Some part of the summary is the mark-seen command, as LIKE compares. */
  ghost predicate NamesMarkSeen(summary: Option<string>) {
    summary.Some? && exists a, m, b :: summary.value == a + m + b && Spells(m, "memoria_heartbeat_gate.py --mark-seen")
  }

  lemma OwnMarkSeenExactly(summary: Option<string>)
    ensures OwnMarkSeen(summary) <==> NamesMarkSeen(summary)
  {
    if summary.Some? {
      var s := summary.value;
      if OwnMarkSeen(summary) {
        var k: nat :| k <= |s| && LikeAt(s, k);
        var m := s[k..k + |OWN_CALL|];
        assert s == s[..k] + m + s[k + |OWN_CALL|..];
        assert Spells(m, "memoria_heartbeat_gate.py --mark-seen");
      }
      if NamesMarkSeen(summary) {
        var a, m, b :| s == a + m + b && Spells(m, "memoria_heartbeat_gate.py --mark-seen");
        assert forall j :: 0 <= j < |m| ==> s[|a| + j] == m[j];
        assert LikeAt(s, |a|);
      }
    }
  }

  /** A row that is news: a message to picard, or a tool call of picard that is not the mark-seen call. */
  ghost predicate News(r: Row) {
    match r
    case Conversation(_, agent, direction) => agent == "picard" && direction == "in"
    case ToolCall(_, agent, summary) => agent == "picard" && !NamesMarkSeen(summary)
  }

  lemma CountedIsNews(r: Row)
    ensures Counted(r) <==> News(r)
  {
    hide OwnMarkSeen, NamesMarkSeen;
    if r.ToolCall? {
      OwnMarkSeenExactly(r.summary);
    }
  }

  /** The marks a file holds; what it does not hold is 0, and the first format has no tool mark. */
  ghost predicate Holds(f: MarkerFile, conv: int, tool: int) {
    match f
    case Object(c, t) => conv == (if c.Some? then c.value else 0) && tool == (if t.Some? then t.value else 0)
    case Bare(id) => conv == id && tool == 0
    case Missing => conv == 0 && tool == 0
    case Unreadable => conv == 0 && tool == 0
  }

  /** No mark is negative and no row in front of its log's mark is news. */
  ghost predicate NoNews(conv: seq<Row>, tool: seq<Row>, c: int, t: int) {
    && c >= 0 && t >= 0
    && (forall k :: 0 <= k < |conv| && News(conv[k]) ==> conv[k].id <= c)
    && (forall k :: 0 <= k < |tool| && News(tool[k]) ==> tool[k].id <= t)
  }

  /** A check is silent exactly when there is no news in front of the marks. */
  lemma {:induction false} SilentWithoutNews(conv: seq<Row>, tool: seq<Row>, f: MarkerFile, c: int, t: int)
    requires Holds(f, c, t)
    ensures Silent(conv, tool, f) <==> NoNews(conv, tool, c, t)
  {
    SilentExactly(conv, tool, f);
    NoneNew(conv, c);
    NoneNew(tool, t);
    forall r ensures Counted(r) <==> News(r) { CountedIsNews(r); }
    hide Counted, News, MaxId, CountNew, Silent;
  }

  /** The rows of a log in front of a mark that are news. */
  ghost function NewsIn(rows: seq<Row>, since: int): set<nat> {
    set k: nat | k < |rows| && News(rows[k]) && rows[k].id > since
  }

  lemma NewsInNext(rows: seq<Row>, since: int)
    requires rows != []
    ensures var n := |rows| - 1;
            |NewsIn(rows, since)|
            == |NewsIn(rows[..n], since)| + if News(rows[n]) && rows[n].id > since then 1 else 0
  {
    hide News;
    var n := |rows| - 1;
    assert forall k :: 0 <= k < n ==> rows[..n][k] == rows[k];
    assert n !in NewsIn(rows[..n], since);
    if News(rows[n]) && rows[n].id > since {
      assert NewsIn(rows, since) == NewsIn(rows[..n], since) + {n};
    } else {
      assert NewsIn(rows, since) == NewsIn(rows[..n], since);
    }
  }

  lemma {:induction false} CountIsNews(rows: seq<Row>, since: int)
    ensures CountNew(rows, since) == |NewsIn(rows, since)|
  {
    if rows != [] {
      NewsInNext(rows, since);
      CountedIsNews(rows[|rows| - 1]);
      hide News, Counted, NewsIn;
      CountIsNews(rows[..|rows| - 1], since);
    } else {
      assert NewsIn([], since) == {};
    }
  }

  /** A wake shows the marks it read and how many rows in front of them are news. */
  lemma {:induction false} WindowShowsNews(conv: seq<Row>, tool: seq<Row>, f: MarkerFile, c: int, t: int)
    requires Holds(f, c, t)
    ensures var wake := Window(conv, tool, f);
            wake.seen == Markers(c, t) && wake.convNew == |NewsIn(conv, c)| && wake.toolNew == |NewsIn(tool, t)|
  {
    CountIsNews(conv, c);
    CountIsNews(tool, t);
    hide MaxId, CountNew, NewsIn;
  }

  // ---- the two operations on the logs and the file ----

  class Gate {
    var conv: seq<Row>
    var tool: seq<Row>
    var file: MarkerFile

    /** The end of the agent's turn; the result is the exit status. */
    method MarkSeen(convUpto: Option<int>, readable: bool) returns (status: nat)
      modifies `file
      ensures status == if convUpto.None? then 2 else if !readable then 1 else 0
      ensures status != 0 ==> file == old(file)
      ensures status == 0 ==>
                ReadMarkers(file) == SeenUpTo(ReadMarkers(old(file)), Maxima(conv, tool), convUpto.value)
      ensures status == 0 ==> file.Object? && file.conv.Some? && file.tool.Some?
    {
      if convUpto.None? { return 2; }
      var seen := ReadMarkers(file);
      if !readable { return 1; }
      var maxima := Maxima(conv, tool);
      var mark := Larger(seen.conv, Smaller(convUpto.value, maxima.conv));
      file := Object(Some(mark), Some(maxima.tool));
      status := 0;
    }

    /** The hourly check; `delivered` is whether the message got through. It changes nothing. */
    method Check(readable: bool, delivered: bool) returns (status: nat, wake: Option<Wake>)
      ensures wake.Some? <==> readable && delivered && !Silent(conv, tool, file)
      ensures wake.Some? ==> wake.value == Window(conv, tool, file)
      ensures forall c, t :: Holds(file, c, t) ==>
                (wake.Some? <==> readable && delivered && !NoNews(conv, tool, c, t))
                && (wake.Some? ==> wake.value.seen == Markers(c, t) && wake.value.convNew == |NewsIn(conv, c)|
                                   && wake.value.toolNew == |NewsIn(tool, t)|)
      ensures status == if readable && (delivered || Silent(conv, tool, file)) then 0 else 1
    {
      forall c, t | Holds(file, c, t)
        ensures Silent(conv, tool, file) <==> NoNews(conv, tool, c, t)
        ensures var w := Window(conv, tool, file);
                w.seen == Markers(c, t) && w.convNew == |NewsIn(conv, c)| && w.toolNew == |NewsIn(tool, t)|
      {
        SilentWithoutNews(conv, tool, file, c, t);
        WindowShowsNews(conv, tool, file, c, t);
      }
      hide Holds, NoNews, NewsIn, MaxId, CountNew, ReadMarkers;
      wake := None;
      var seen := ReadMarkers(file);
      if !readable { return 1, None; }
      var maxima := Maxima(conv, tool);
      if maxima.conv <= seen.conv && maxima.tool <= seen.tool { return 0, None; }
      if !delivered { return 1, None; }
      wake := Some(Wake(seen, maxima, CountNew(conv, seen.conv), CountNew(tool, seen.tool)));
      status := 0;
    }
  }

  // ---- one mark ----

  /** A counted message in front of the mark stays in front exactly when it is later than the id the caller names. */
  lemma {:induction false} StaysInFront(conv: seq<Row>, tool: seq<Row>, f: MarkerFile, upto: int, k: nat)
    requires k < |conv| && Counted(conv[k]) && conv[k].id > ReadMarkers(f).conv
    ensures conv[k].id > SeenUpTo(ReadMarkers(f), Maxima(conv, tool), upto).conv <==> conv[k].id > upto
  {
    hide Counted;
    MaxIsHighest(conv);
  }

  /** The conversation mark never goes back; the tool mark goes back exactly when it was past the log's end. */
  lemma {:induction false} MarkGoesBack(conv: seq<Row>, tool: seq<Row>, f: MarkerFile, upto: int)
    ensures var m, n := ReadMarkers(f), SeenUpTo(ReadMarkers(f), Maxima(conv, tool), upto);
            n.conv >= m.conv && (n.tool < m.tool <==> m.tool > MaxId(tool))
  {}

  // ---- runs ----

  /** The logs, the marker file and the wakes delivered so far. */
  datatype World = World(conv: seq<Row>, tool: seq<Row>, file: MarkerFile, wakes: seq<Wake>)

  datatype Step = Log(row: Row) | Check(readable: bool, delivered: bool) | Mark(upto: Option<int>, readable: bool)

  predicate Later(rows: seq<Row>, r: Row) { 0 < r.id && forall k :: 0 <= k < |rows| ==> rows[k].id < r.id }

  function Seen(w: World): Markers { ReadMarkers(w.file) }

  /** Rows are only ever appended, with growing ids. */
  predicate Enabled(w: World, s: Step) {
    s.Log? ==> Later(if s.row.Conversation? then w.conv else w.tool, s.row)
  }

  function Do(w: World, s: Step): World {
    match s
    case Log(r) => if r.Conversation? then w.(conv := w.conv + [r]) else w.(tool := w.tool + [r])
    case Check(readable, delivered) =>
      if readable && delivered && !Silent(w.conv, w.tool, w.file) then
        w.(wakes := w.wakes + [Window(w.conv, w.tool, w.file)])
      else w
    case Mark(upto, readable) =>
      if upto.None? || !readable then w
      else
        var m := SeenUpTo(Seen(w), Maxima(w.conv, w.tool), upto.value);
        w.(file := Object(Some(m.conv), Some(m.tool)))
  }

  predicate Possible(w: World, steps: seq<Step>)
    decreases |steps|
  {
    steps == [] || (Enabled(w, steps[0]) && Possible(Do(w, steps[0]), steps[1..]))
  }

  function After(w: World, steps: seq<Step>): World
    decreases |steps|
  {
    if steps == [] then w else After(Do(w, steps[0]), steps[1..])
  }

  predicate Shown(w: World, upto: int) { exists k :: 0 <= k < |w.wakes| && w.wakes[k].maxima.conv == upto }

  /** At each mark the agent names the end of a window that a wake has shown it. */
  predicate Honest(w: World, steps: seq<Step>)
    decreases |steps|
  {
    steps == []
    || ((steps[0].Mark? && steps[0].upto.Some? ==> Shown(w, steps[0].upto.value))
        && Honest(Do(w, steps[0]), steps[1..]))
  }

  /** The highest conversation id a wake has shown, 0 when there was none. */
  function LastShown(wakes: seq<Wake>): int {
    if wakes == [] then 0
    else Larger(LastShown(wakes[..|wakes| - 1]), wakes[|wakes| - 1].maxima.conv)
  }

  /** Every message that is in front of the mark and of all that was shown is also in front of the id named. */
  predicate SafeId(w: World, upto: int) {
    forall k :: 0 <= k < |w.conv| && Counted(w.conv[k]) && w.conv[k].id > Larger(LastShown(w.wakes), Seen(w).conv) ==>
                  w.conv[k].id > upto
  }

  predicate SafeStep(w: World, s: Step) { s.Mark? && s.upto.Some? && s.readable ==> SafeId(w, s.upto.value) }

  /** Every mark that is written names a safe id. */
  predicate Careful(w: World, steps: seq<Step>)
    decreases |steps|
  {
    steps == [] || (SafeStep(w, steps[0]) && Careful(Do(w, steps[0]), steps[1..]))
  }

  /** Where a run starts: no wake yet, the marks within the logs. */
  predicate Start(w: World) {
    w.wakes == [] && 0 <= Seen(w).conv <= MaxId(w.conv) && 0 <= Seen(w).tool <= MaxId(w.tool)
  }

  predicate InWindow(id: int, wake: Wake) { wake.seen.conv < id <= wake.maxima.conv }

  predicate WasShown(w: World, id: int) { exists k :: 0 <= k < |w.wakes| && InWindow(id, w.wakes[k]) }

  predicate Marks(w: World) {
    && 0 <= Seen(w).conv <= MaxId(w.conv) && 0 <= Seen(w).tool <= MaxId(w.tool)
    && (forall k :: 0 <= k < |w.wakes| ==>
          w.wakes[k].seen.conv <= Seen(w).conv && w.wakes[k].maxima.conv <= MaxId(w.conv))
  }

  predicate Covered(w: World, start: int) {
    forall k :: 0 <= k < |w.conv| && Counted(w.conv[k]) && start < w.conv[k].id <= Seen(w).conv ==>
                  WasShown(w, w.conv[k].id)
  }

  lemma MaxGrows(rows: seq<Row>, r: Row)
    ensures MaxId(rows) <= MaxId(rows + [r])
    ensures !Counted(r) ==> MaxId(rows + [r]) == MaxId(rows)
    ensures Counted(r) && Later(rows, r) ==> MaxId(rows + [r]) > MaxId(rows)
  {
    hide Counted;
    assert (rows + [r])[..|rows|] == rows;
    MaxIsHighest(rows);
  }

  lemma StepKeepsMarks(w: World, s: Step)
    requires Marks(w) && Enabled(w, s)
    ensures Marks(Do(w, s)) && Seen(w).conv <= Seen(Do(w, s)).conv && Seen(w).tool <= Seen(Do(w, s)).tool
  {
    hide MaxId, Counted, Later, CountNew;
    if s.Log? {
      MaxGrows(if s.row.Conversation? then w.conv else w.tool, s.row);
    }
  }

  lemma {:induction false} RunKeepsMarks(w: World, steps: seq<Step>)
    requires Marks(w) && Possible(w, steps)
    ensures Marks(After(w, steps))
    ensures Seen(w).conv <= Seen(After(w, steps)).conv && Seen(w).tool <= Seen(After(w, steps)).tool
    decreases |steps|
  {
    if steps != [] {
      hide Marks, Enabled, Do;
      StepKeepsMarks(w, steps[0]);
      RunKeepsMarks(Do(w, steps[0]), steps[1..]);
    }
  }

  /** In every run neither watermark goes back, and neither passes the end of its log. */
  lemma {:induction false} WatermarksOnlyAdvance(w: World, before: seq<Step>, more: seq<Step>)
    requires Start(w) && Possible(w, before) && Possible(After(w, before), more)
    ensures var a, b := After(w, before), After(After(w, before), more);
            Seen(a).conv <= Seen(b).conv <= MaxId(b.conv) && Seen(a).tool <= Seen(b).tool <= MaxId(b.tool)
  {
    RunKeepsMarks(w, before);
    RunKeepsMarks(After(w, before), more);
  }

  lemma {:induction false} LastShownIs(wakes: seq<Wake>)
    ensures forall k :: 0 <= k < |wakes| ==> wakes[k].maxima.conv <= LastShown(wakes)
    ensures LastShown(wakes) == 0 || exists k :: 0 <= k < |wakes| && wakes[k].maxima.conv == LastShown(wakes)
  {
    if wakes != [] { LastShownIs(wakes[..|wakes| - 1]); }
  }

  /** In front of the mark, what was shown is what is not above the last shown id. */
  lemma ShownInFront(w: World, id: int)
    requires Marks(w) && Seen(w).conv < id
    ensures WasShown(w, id) <==> id <= LastShown(w.wakes)
  {
    hide MaxId;
    LastShownIs(w.wakes);
    if id <= LastShown(w.wakes) {
      var k :| 0 <= k < |w.wakes| && w.wakes[k].maxima.conv == LastShown(w.wakes);
      assert InWindow(id, w.wakes[k]);
    }
  }

  /** A message that the mark passes in this step. */
  predicate Passed(w: World, v: World, k: nat) {
    k < |w.conv| && Counted(w.conv[k]) && Seen(w).conv < w.conv[k].id <= Seen(v).conv
  }

  /** One mark, exactly: every message it passes has been shown if and only if the id named is safe. */
  lemma {:induction false} MarkIsSafe(w: World, upto: int)
    requires Marks(w)
    ensures (forall k: nat :: Passed(w, Do(w, Mark(Some(upto), true)), k) ==> WasShown(w, w.conv[k].id))
       <==> SafeId(w, upto)
  {
    hide Counted, WasShown, MaxId, LastShown, Marks;
    var v := Do(w, Mark(Some(upto), true));
    forall k | 0 <= k < |w.conv| && Counted(w.conv[k]) && w.conv[k].id > Seen(w).conv
      ensures Passed(w, v, k) <==> w.conv[k].id <= upto
      ensures WasShown(w, w.conv[k].id) <==> w.conv[k].id <= LastShown(w.wakes)
    {
      StaysInFront(w.conv, w.tool, w.file, upto, k);
      ShownInFront(w, w.conv[k].id);
    }
    if SafeId(w, upto) {
      forall k: nat | Passed(w, v, k) ensures WasShown(w, w.conv[k].id) {}
    } else {
      var k :| 0 <= k < |w.conv| && Counted(w.conv[k])
               && w.conv[k].id > Larger(LastShown(w.wakes), Seen(w).conv) && w.conv[k].id <= upto;
      assert Passed(w, v, k);
    }
  }

  /** A new row lies in front of the mark. */
  lemma MarkBefore(w: World, r: Row)
    requires Marks(w) && Later(w.conv, r) && Counted(r)
    ensures Seen(w).conv < r.id
  {
    hide Counted;
    MaxIsHighest(w.conv);
  }

  /** A message behind the mark was shown, or was not, for good: a later window starts behind it. */
  lemma ShownForGood(w: World, s: Step, id: int)
    requires Enabled(w, s) && id <= Seen(w).conv
    ensures WasShown(Do(w, s), id) <==> WasShown(w, id)
  {
    hide Silent, CountNew, MaxId;
    var v := Do(w, s);
    if WasShown(w, id) {
      var j :| 0 <= j < |w.wakes| && InWindow(id, w.wakes[j]);
      assert InWindow(id, v.wakes[j]);
    }
  }

  lemma SameRows(w: World, s: Step)
    requires Marks(w) && Enabled(w, s)
    ensures var v := Do(w, s);
            && |w.conv| <= |v.conv| && v.conv[..|w.conv|] == w.conv
            && (forall k :: |w.conv| <= k < |v.conv| && Counted(v.conv[k]) ==> v.conv[k].id > Seen(v).conv)
            && (Seen(v).conv != Seen(w).conv || v.file != w.file ==> s.Mark? && s.upto.Some? && s.readable)
            && (s.Mark? ==> v.conv == w.conv && v.wakes == w.wakes)
  {
    hide Counted, CountNew, Silent, MaxId, Later;
    if s.Log? && s.row.Conversation? && Counted(s.row) { MarkBefore(w, s.row); }
  }

  /** A step keeps every message behind the mark shown exactly if it is safe. */
  lemma StepKeepsCovered(w: World, s: Step, start: int)
    requires Marks(w) && Enabled(w, s) && start <= Seen(w).conv
    ensures Covered(Do(w, s), start) <==> Covered(w, start) && SafeStep(w, s)
  {
    var v := Do(w, s);
    StepKeepsMarks(w, s);
    SameRows(w, s);
    assert forall k :: 0 <= k < |w.conv| ==> w.conv[k] == v.conv[..|w.conv|][k] == v.conv[k];
    if s.Mark? && s.upto.Some? && s.readable { MarkIsSafe(w, s.upto.value); }
    hide Counted, Marks, Enabled, MaxId, SafeId, LastShown;
    forall k | 0 <= k < |w.conv| && w.conv[k].id <= Seen(w).conv
      ensures WasShown(v, w.conv[k].id) <==> WasShown(w, w.conv[k].id)
    {
      ShownForGood(w, s, w.conv[k].id);
    }
    hide WasShown, Do;
    if Covered(v, start) && s.Mark? && s.upto.Some? && s.readable {
      forall k: nat | Passed(w, v, k) ensures WasShown(w, w.conv[k].id) {
        assert v.conv[k] == w.conv[k];
      }
    }
    if Covered(w, start) && SafeStep(w, s) {
      forall k | 0 <= k < |v.conv| && Counted(v.conv[k]) && start < v.conv[k].id <= Seen(v).conv
        ensures WasShown(v, v.conv[k].id)
      {
        if w.conv[k].id > Seen(w).conv { assert Passed(w, v, k); }
      }
    }
  }

  lemma {:induction false} RunKeepsCovered(w: World, steps: seq<Step>, start: int)
    requires Marks(w) && Possible(w, steps) && start <= Seen(w).conv
    ensures Covered(After(w, steps), start) <==> Covered(w, start) && Careful(w, steps)
    decreases |steps|
  {
    if steps != [] {
      hide Marks, Enabled, Do, Covered, SafeStep;
      StepKeepsMarks(w, steps[0]);
      StepKeepsCovered(w, steps[0], start);
      RunKeepsCovered(Do(w, steps[0]), steps[1..], start);
    }
  }

  /** Over every run, exactly: each counted message behind the conversation mark was there at the start, or inside the
      window of a wake that reached the agent, if and only if every mark written on the way named a safe id. So a run
      that once names an unsafe id never makes up for it. */
  lemma {:induction false} NothingSwallowed(w: World, steps: seq<Step>)
    requires Start(w) && Possible(w, steps)
    ensures var v := After(w, steps);
            Careful(w, steps)
            <==> (forall k :: 0 <= k < |v.conv| && Counted(v.conv[k]) && Seen(w).conv < v.conv[k].id <= Seen(v).conv ==>
                                WasShown(v, v.conv[k].id))
  {
    RunKeepsCovered(w, steps, Seen(w).conv);
  }

  lemma {:induction false} Prefix(w: World, steps: seq<Step>, n: nat)
    requires Possible(w, steps) && n <= |steps|
    ensures Possible(w, steps[..n]) && (Careful(w, steps) ==> Careful(w, steps[..n]))
    decreases |steps|
  {
    if n > 0 {
      hide Do, Enabled, SafeStep;
      assert steps[..n][1..] == steps[1..][..n - 1];
      Prefix(Do(w, steps[0]), steps[1..], n - 1);
    }
  }

  /** The same at every moment of the run. */
  lemma {:induction false} NothingSwallowedOnTheWay(w: World, steps: seq<Step>)
    requires Start(w) && Possible(w, steps)
    ensures Careful(w, steps) <==> forall n :: 0 <= n <= |steps| ==> Covered(After(w, steps[..n]), Seen(w).conv)
  {
    forall n: nat | n <= |steps| ensures Careful(w, steps) ==> Covered(After(w, steps[..n]), Seen(w).conv) {
      Prefix(w, steps, n);
      RunKeepsCovered(w, steps[..n], Seen(w).conv);
    }
    RunKeepsCovered(w, steps, Seen(w).conv);
    assert steps[..|steps|] == steps;
  }

  /** The id the wake message asks for is safe, and so is any id below it. */
  lemma {:induction false} ShownIdIsSafe(w: World, upto: int, shown: int)
    requires Shown(w, shown) && upto <= shown
    ensures SafeId(w, upto)
  {
    LastShownIs(w.wakes);
  }

  lemma {:induction false} HonestIsCareful(w: World, steps: seq<Step>)
    requires Honest(w, steps)
    ensures Careful(w, steps)
    decreases |steps|
  {
    if steps != [] {
      if steps[0].Mark? && steps[0].upto.Some? { ShownIdIsSafe(w, steps[0].upto.value, steps[0].upto.value); }
      hide Do, Shown;
      HonestIsCareful(Do(w, steps[0]), steps[1..]);
    }
  }

  lemma ThreeSteps(w: World, a: Step, b: Step, c: Step)
    ensures var w1 := Do(w, a);
            var w2 := Do(w1, b);
            After(w, [a, b, c]) == Do(w2, c)
            && (Possible(w, [a, b, c]) <==> Enabled(w, a) && Enabled(w1, b) && Enabled(w2, c))
            && (Careful(w, [a, b, c]) ==> SafeStep(w2, c))
  {
    hide Do, Enabled, SafeStep;
    assert [a, b, c][1..] == [b, c] && [b, c][1..] == [c] && [c][1..] == [];
    var w2 := Do(Do(w, a), b);
    assert After(w2, [c]) == Do(w2, c) && (Possible(w2, [c]) <==> Enabled(w2, c));
    assert Careful(w, [a, b, c]) ==> Careful(Do(w, a), [b, c]);
    assert Careful(Do(w, a), [b, c]) ==> Careful(w2, [c]);
  }

  function Message(id: nat): Row { Conversation(id, AGENT, "in") }

  /** A message was there, and was shown; a second one came; the mark took both. */
  function Before(): World { World([Message(1)], [], Missing, []) }

  function Woken(): World { Before().(wakes := [Wake(Markers(0, 0), Markers(1, 0), 1, 0)]) }

  function Grown(): World { Woken().(conv := [Message(1), Message(2)]) }

  function Lost(): World { Grown().(file := Object(Some(2), Some(0))) }

  lemma OneMessage()
    ensures MaxId([Message(1)]) == 1 && CountNew([Message(1)], 0) == 1 && MaxId([]) == 0 && CountNew([], 0) == 0
  {
    assert [Message(1)][..0] == [];
  }

  lemma WokenIs()
    ensures Do(Before(), Check(true, true)) == Woken()
  {
    OneMessage();
    hide MaxId, CountNew;
  }

  lemma GrownIs()
    ensures Enabled(Woken(), Log(Message(2))) && Do(Woken(), Log(Message(2))) == Grown()
  {}

  lemma LostIs()
    ensures Do(Grown(), Mark(Some(2), true)) == Lost()
  {
    OneMessage();
    assert [Message(1), Message(2)][..1] == [Message(1)];
    assert MaxId([Message(1), Message(2)]) == 2;
    hide MaxId;
  }

  lemma TwoIsUnsafe()
    ensures !SafeStep(Grown(), Mark(Some(2), true)) && !WasShown(Lost(), 2)
  {
    assert Grown().wakes[..0] == [] && LastShown(Grown().wakes) == 1 && Grown().conv[1] == Message(2);
    assert !InWindow(2, Lost().wakes[0]);
  }

  /** An unsafe id: a message arrives after the check, the agent names the current maximum, and the message is lost. */
  lemma {:induction false} UnshownIdSwallows()
    ensures var w := World([Conversation(1, AGENT, "in")], [], Missing, []);
            var steps := [Check(true, true), Log(Conversation(2, AGENT, "in")), Mark(Some(2), true)];
            var v := After(w, steps);
            Start(w) && Possible(w, steps) && !Careful(w, steps)
            && v.conv == w.conv + [Conversation(2, AGENT, "in")] && Counted(Conversation(2, AGENT, "in"))
            && Seen(v).conv == 2 && !WasShown(v, 2)
  {
    OneMessage();
    WokenIs();
    GrownIs();
    LostIs();
    TwoIsUnsafe();
    ThreeSteps(Before(), Check(true, true), Log(Message(2)), Mark(Some(2), true));
    hide Do, After, Possible, Careful, SafeStep, MaxId, WasShown;
  }

  // ---- no turn feeds the gate ----

  /** A turn that dies before its mark leaves its whole window in front: the marker file is what it was, and a check
      that would have woken the agent still would, on a window that holds the earlier one. */
  lemma {:induction false} DeadTurn(w: World, steps: seq<Step>)
    requires Possible(w, steps) && forall k :: 0 <= k < |steps| ==> !steps[k].Mark?
    ensures var v := After(w, steps);
            v.file == w.file && (Silent(v.conv, v.tool, v.file) ==> Silent(w.conv, w.tool, w.file))
            && MaxId(w.conv) <= MaxId(v.conv) && MaxId(w.tool) <= MaxId(v.tool)
    decreases |steps|
  {
    if steps != [] {
      hide Counted, MaxId, Later, Possible, CountNew;
      var s := steps[0];
      if s.Log? { MaxGrows(if s.row.Conversation? then w.conv else w.tool, s.row); }
      StepsOn(w, steps);
      DeadTurn(Do(w, s), steps[1..]);
    }
  }

  lemma StepsOn(w: World, steps: seq<Step>)
    requires steps != [] && Possible(w, steps)
    ensures Enabled(w, steps[0]) && Possible(Do(w, steps[0]), steps[1..])
  {}

  /** Some step adds a row that counts. */
  predicate Feeds(steps: seq<Step>) { exists k :: 0 <= k < |steps| && FeedStep(steps[k]) }

  predicate FeedStep(s: Step) { s.Log? && Counted(s.row) }

  lemma {:induction false} MaximaGrow(w: World, steps: seq<Step>)
    requires Possible(w, steps)
    ensures var v := After(w, steps);
            MaxId(w.conv) <= MaxId(v.conv) && MaxId(w.tool) <= MaxId(v.tool)
            && (Feeds(steps) <==> MaxId(w.conv) < MaxId(v.conv) || MaxId(w.tool) < MaxId(v.tool))
    decreases |steps|
  {
    if steps != [] {
      var s := steps[0];
      assert Feeds(steps) <==> FeedStep(s) || Feeds(steps[1..]) by {
        hide FeedStep;
        FeedsAt(steps);
      }
      hide Counted, MaxId, Later, CountNew, Feeds, Possible;
      StepsOn(w, steps);
      if s.Log? { MaxGrows(if s.row.Conversation? then w.conv else w.tool, s.row); }
      MaximaGrow(Do(w, s), steps[1..]);
    }
  }

  lemma FeedsAt(steps: seq<Step>)
    requires steps != []
    ensures Feeds(steps) <==> FeedStep(steps[0]) || Feeds(steps[1..])
  {
    hide FeedStep;
    var rest := steps[1..];
    if Feeds(steps) {
      var k :| 0 <= k < |steps| && FeedStep(steps[k]);
      if k > 0 { assert FeedStep(rest[k - 1]); }
    }
    if Feeds(rest) {
      var k :| 0 <= k < |rest| && FeedStep(rest[k]);
      assert FeedStep(steps[k + 1]);
    }
  }

  /** From a mark to the next one a check is silent exactly as long as no counted row is added and the mark took in
      every message there was. */
  lemma SilentUnlessFed(w: World, upto: int, steps: seq<Step>)
    requires Marks(w) && Possible(Do(w, Mark(Some(upto), true)), steps)
    requires forall k :: 0 <= k < |steps| ==> !steps[k].Mark?
    ensures var v := After(Do(w, Mark(Some(upto), true)), steps);
            Silent(v.conv, v.tool, v.file) <==> !Feeds(steps) && MaxId(w.conv) <= Larger(Seen(w).conv, upto)
  {
    var w1 := Do(w, Mark(Some(upto), true));
    MaximaGrow(w1, steps);
    DeadTurn(w1, steps);
    assert Seen(w1) == SeenUpTo(Seen(w), Maxima(w.conv, w.tool), upto) && w1.conv == w.conv && w1.tool == w.tool;
    assert MaxId(w.tool) == Seen(w1).tool && Seen(w1).conv <= MaxId(w.conv);
    hide MaxId, Feeds, After, Possible, Do, Counted, Marks, ReadMarkers;
  }

  /** The call the wake message asks for is not counted, whatever stands around it. */
  lemma {:induction false} OwnCallNotCounted(id: nat, before: string, after: string)
    ensures !Counted(ToolCall(id, AGENT, Some(before + OWN_CALL + after)))
  {
    assert LikeAt(before + OWN_CALL + after, |before|);
  }

  // ---- the agent's own turn ----

  /** A row that is no news: an outbound message, a row of another agent, a mark-seen call. */
  ghost predicate Quiet(r: Row) {
    || r.agent != "picard"
    || (r.Conversation? && r.direction != "in")
    || (r.ToolCall? && NamesMarkSeen(r.summary))
  }

  lemma FeedsExactly(steps: seq<Step>)
    ensures Feeds(steps) <==> exists k :: 0 <= k < |steps| && steps[k].Log? && News(steps[k].row)
    ensures (forall k :: 0 <= k < |steps| && steps[k].Log? ==> Quiet(steps[k].row)) <==> !Feeds(steps)
  {
    forall r ensures Counted(r) <==> News(r) { CountedIsNews(r); }
    hide Counted, NamesMarkSeen;
    if Feeds(steps) {
      var k :| 0 <= k < |steps| && FeedStep(steps[k]);
      assert steps[k].Log? && News(steps[k].row);
    }
    if k :| 0 <= k < |steps| && steps[k].Log? && News(steps[k].row) {
      assert FeedStep(steps[k]);
    }
  }

  lemma MarkTakesIn(w: World, upto: int)
    requires Marks(w)
    ensures MaxId(w.conv) <= Larger(Seen(w).conv, upto)
       <==> forall k :: 0 <= k < |w.conv| && News(w.conv[k]) ==> w.conv[k].id <= Larger(Seen(w).conv, upto)
  {
    MaxIsHighest(w.conv);
    forall r ensures Counted(r) <==> News(r) { CountedIsNews(r); }
    hide Counted, News, MaxId;
  }

  lemma {:induction false} QuietRun(w: World, steps: seq<Step>)
    requires Silent(w.conv, w.tool, w.file) && Possible(w, steps) && !Feeds(steps)
    requires forall k :: 0 <= k < |steps| ==> !steps[k].Mark?
    ensures var v := After(w, steps); Silent(v.conv, v.tool, v.file) && v.wakes == w.wakes
    decreases |steps|
  {
    if steps != [] {
      FeedsAt(steps);
      StepsOn(w, steps);
      QuietStep(w, steps[0]);
      hide Silent, Feeds, Possible, Do, FeedStep;
      QuietRun(Do(w, steps[0]), steps[1..]);
    }
  }

  lemma QuietStep(w: World, s: Step)
    requires Silent(w.conv, w.tool, w.file) && !FeedStep(s) && !s.Mark?
    ensures var v := Do(w, s); Silent(v.conv, v.tool, v.file) && v.wakes == w.wakes
  {
    hide MaxId, Counted;
    if s.Log? { MaxGrows(if s.row.Conversation? then w.conv else w.tool, s.row); }
  }

  /** The gate does not feed itself: from a mark to the next one a check is silent exactly when the run has logged only
      outbound messages, rows of other agents and mark-seen calls, and the mark took in every message to picard; and
      then no check on the way has woken the agent. One message to picard, or one other tool call of its, wakes it. */
  lemma {:induction false} NoSelfFeeding(w: World, upto: int, steps: seq<Step>)
    requires Marks(w) && Possible(Do(w, Mark(Some(upto), true)), steps)
    requires forall k :: 0 <= k < |steps| ==> !steps[k].Mark?
    ensures var v := After(Do(w, Mark(Some(upto), true)), steps);
            && (Silent(v.conv, v.tool, v.file)
                <==> (forall k :: 0 <= k < |steps| && steps[k].Log? ==> Quiet(steps[k].row))
                     && (forall k :: 0 <= k < |w.conv| && News(w.conv[k]) ==>
                           w.conv[k].id <= Larger(Seen(w).conv, upto)))
            && (Silent(v.conv, v.tool, v.file) ==> v.wakes == w.wakes)
  {
    var w1 := Do(w, Mark(Some(upto), true));
    MarkTakesIn(w, upto);
    FeedsExactly(steps);
    FeedsExactly([]);
    assert w1.wakes == w.wakes && Possible(w1, []) && After(w1, []) == w1;
    SilentUnlessFed(w, upto, []);
    SilentUnlessFed(w, upto, steps);
    hide Silent, Feeds, Marks, Possible, Do, After, MaxId, News, Quiet;
    if Silent(After(w1, steps).conv, After(w1, steps).tool, After(w1, steps).file) {
      QuietRun(w1, steps);
    }
  }
}
