/** Patched texts line by line: what the topics patch of module TopicsPatch does behind other lines, and a way to show
    that it goes on a text. */
module TopicsLines {
  import opened Lines
  import opened Options
  import opened Sequences
  import opened Strings
  import opened TextLines
  import opened TopicsPatch

  // ---- anchors behind other lines ----

  lemma {:induction false} SpacesEndShift(p: string, t: string, j: nat)
    requires j <= |t|
    ensures SpacesEnd(p + t, |p| + j) == |p| + SpacesEnd(t, j)
    decreases |t| - j
  {
    if j < |t| && t[j] == ' ' { SpacesEndShift(p, t, j + 1); }
  }

  lemma {:induction false} FeedEndShift(p: string, t: string, j: nat)
    requires j <= |t|
    ensures FeedEnd(p + t, |p| + j) == |p| + FeedEnd(t, j)
    decreases |t| - j
  {
    if j < |t| && t[j] != '\n' { FeedEndShift(p, t, j + 1); }
  }

  function Shifted(r: Option<nat>, n: nat): Option<nat> { if r.Some? then Some(n + r.value) else None }

  /** Whether the literal stands at `s`. */
  predicate LitAt(t: string, s: nat, lit: string) { s + |lit| <= |t| && t[s..s + |lit|] == lit }

  /** Where an anchor line ends whose literal ends at `e`. */
  function TailEnd(t: string, e: nat, line: Line): Option<nat>
    requires e <= |t|
  {
    match line
    case Exact(_) => if e < |t| && t[e] == '\n' then Some(e + 1) else None
    case Prefix(_) => if FeedEnd(t, e) < |t| then Some(FeedEnd(t, e) + 1) else None
    case Open(_) => Some(e)
  }

  lemma TailShift(p: string, t: string, e: nat, line: Line)
    requires e <= |t|
    ensures TailEnd(p + t, |p| + e, line) == Shifted(TailEnd(t, e, line), |p|)
  {
    hide FeedEnd;
    FeedEndShift(p, t, e);
  }

  lemma MatchLineIs(t: string, j: nat, line: Line)
    requires j <= |t|
    ensures var s := SpacesEnd(t, j);
            MatchLine(t, j, line) == if LitAt(t, s, line.lit) then TailEnd(t, s + |line.lit|, line) else None
  {
    hide SpacesEnd, FeedEnd;
  }

  lemma LitShift(p: string, t: string, s: nat, lit: string)
    requires s <= |t|
    ensures LitAt(p + t, |p| + s, lit) <==> LitAt(t, s, lit)
    ensures LitAt(t, s, lit) ==> s + |lit| <= |t|
  {
    if s + |lit| <= |t| { SliceShift(p, t, s, s + |lit|); }
  }

  lemma MatchLineShift(p: string, t: string, j: nat, line: Line)
    requires j <= |t|
    ensures MatchLine(p + t, |p| + j, line) == Shifted(MatchLine(t, j, line), |p|)
  {
    hide MatchLine, SpacesEnd, LitAt, TailEnd;
    var s := SpacesEnd(t, j);
    SpacesEndShift(p, t, j);
    MatchLineIs(t, j, line);
    MatchLineIs(p + t, |p| + j, line);
    LitShift(p, t, s, line.lit);
    if LitAt(t, s, line.lit) { TailShift(p, t, s + |line.lit|, line); }
  }

  lemma SliceShift(p: string, t: string, a: nat, b: nat)
    requires a <= b <= |t|
    ensures (p + t)[|p| + a..|p| + b] == t[a..b] && (b < |t| ==> (p + t)[|p| + b] == t[b])
  {}

  lemma {:induction false} MatchAnchorShift(p: string, t: string, j: nat, anchor: seq<Line>)
    requires j <= |t|
    ensures MatchAnchor(p + t, |p| + j, anchor) == Shifted(MatchAnchor(t, j, anchor), |p|)
    decreases |anchor|
  {
    hide MatchLine;
    if anchor != [] {
      MatchLineShift(p, t, j, anchor[0]);
      var e := MatchLine(t, j, anchor[0]);
      if e.Some? {
        hide MatchAnchor;
        MatchAnchorShift(p, t, e.value, anchor[1..]);
        AnchorOn(t, j, anchor);
        AnchorOn(p + t, |p| + j, anchor);
      }
    }
  }

  lemma AnchorOn(t: string, j: nat, anchor: seq<Line>)
    requires j <= |t| && anchor != [] && MatchLine(t, j, anchor[0]).Some?
    ensures MatchAnchor(t, j, anchor) == MatchAnchor(t, MatchLine(t, j, anchor[0]).value, anchor[1..])
  {
    hide MatchLine;
  }

  function ShiftAll(ms: seq<Match>, n: nat): seq<Match> {
    seq(|ms|, k requires 0 <= k < |ms| => Match(n + ms[k].from, n + ms[k].text, n + ms[k].to))
  }

  function Moved(m: Match, n: nat): Match { Match(n + m.from, n + m.text, n + m.to) }

  lemma ShiftOne(ms: seq<Match>, n: nat)
    ensures |ShiftAll(ms, n)| == |ms| && (|ms| == 1 ==> ShiftAll(ms, n) == [Moved(ms[0], n)])
    ensures ms == [] ==> ShiftAll(ms, n) == []
  {}

  lemma ShiftCat(a: seq<Match>, b: seq<Match>, n: nat)
    ensures ShiftAll(a + b, n) == ShiftAll(a, n) + ShiftAll(b, n)
  {}

  function EndAt(t: string, j: nat, anchor: seq<Line>): (e: Option<nat>)
    requires j <= |t|
    ensures e.Some? ==> e.value <= |t|
  {
    if LineStart(t, j) then MatchAnchor(t, j, anchor) else None
  }

  /** The match at `j`, if there is one, and where the search goes on. */
  function MatchAt(t: string, j: nat, anchor: seq<Line>): seq<Match>
    requires j <= |t|
  {
    var e := EndAt(t, j, anchor);
    if e.Some? then [Match(j, SpacesEnd(t, j), e.value)] else []
  }

  function NextAt(t: string, j: nat, anchor: seq<Line>): (n: nat)
    requires j <= |t|
    ensures j < n <= |t| + 1
  {
    var e := EndAt(t, j, anchor);
    if e.Some? && e.value > j then e.value else j + 1
  }

  function From(t: string, j: nat, anchor: seq<Line>): seq<Match> { if j <= |t| then FindAll(t, j, anchor) else [] }

  lemma FindAllIs(t: string, j: nat, anchor: seq<Line>)
    requires j <= |t|
    ensures FindAll(t, j, anchor) == MatchAt(t, j, anchor) + From(t, NextAt(t, j, anchor), anchor)
  {
    hide MatchAnchor, SpacesEnd;
  }

  lemma AtShift(p: string, t: string, j: nat, anchor: seq<Line>)
    requires p != "" && Closed(p) && j <= |t|
    ensures MatchAt(p + t, |p| + j, anchor) == ShiftAll(MatchAt(t, j, anchor), |p|)
    ensures NextAt(p + t, |p| + j, anchor) == |p| + NextAt(t, j, anchor)
  {
    EndShift(p, t, j, anchor);
    SpacesEndShift(p, t, j);
    ShiftOne(MatchAt(t, j, anchor), |p|);
    hide EndAt, SpacesEnd, ShiftAll, Closed;
  }

  lemma EndShift(p: string, t: string, j: nat, anchor: seq<Line>)
    requires p != "" && Closed(p) && j <= |t|
    ensures EndAt(p + t, |p| + j, anchor) == Shifted(EndAt(t, j, anchor), |p|)
  {
    hide MatchAnchor, LineStart, Closed;
    LineStartShift(p, t, j);
    MatchAnchorShift(p, t, j, anchor);
  }

  lemma LineStartShift(p: string, t: string, j: nat)
    requires p != "" && Closed(p) && j <= |t|
    ensures LineStart(p + t, |p| + j) <==> LineStart(t, j)
  {
    if j > 0 { assert (p + t)[|p| + j - 1] == t[j - 1]; }
  }

  /** Behind closed lines the matches are those of the text itself, moved. */
  lemma {:induction false} FindAllShift(p: string, t: string, j: nat, anchor: seq<Line>)
    requires p != "" && Closed(p) && j <= |t|
    ensures FindAll(p + t, |p| + j, anchor) == ShiftAll(FindAll(t, j, anchor), |p|)
    decreases |t| - j
  {
    hide *;
    FindAllIs(t, j, anchor);
    FindAllIs(p + t, |p| + j, anchor);
    AtShift(p, t, j, anchor);
    var next := NextAt(t, j, anchor);
    if next <= |t| { FindAllShift(p, t, next, anchor); }
    FromShift(p, t, next, anchor);
    ShiftCat(MatchAt(t, j, anchor), From(t, next, anchor), |p|);
  }

  lemma FromShift(p: string, t: string, j: nat, anchor: seq<Line>)
    requires j <= |t| ==> FindAll(p + t, |p| + j, anchor) == ShiftAll(FindAll(t, j, anchor), |p|)
    ensures From(p + t, |p| + j, anchor) == ShiftAll(From(t, j, anchor), |p|)
  {
    hide FindAll;
  }

  /** Lines before the first match are passed over. */
  lemma {:induction false} FindSkips(t: string, j: nat, k: nat, anchor: seq<Line>)
    requires j <= k <= |t| && forall i :: j <= i < k && LineStart(t, i) ==> MatchAnchor(t, i, anchor) == None
    ensures FindAll(t, j, anchor) == FindAll(t, k, anchor)
    decreases k - j
  {
    if j < k {
      SkipOne(t, j, anchor);
      hide FindAll, MatchAnchor;
      FindSkips(t, j + 1, k, anchor);
    }
  }

  lemma SkipOne(t: string, j: nat, anchor: seq<Line>)
    requires j < |t| && (LineStart(t, j) ==> MatchAnchor(t, j, anchor) == None)
    ensures FindAll(t, j, anchor) == FindAll(t, j + 1, anchor)
  {
    hide MatchAnchor;
  }

  /** A line that the anchor does not match is passed over. */
  lemma BehindLine(line: string, t: string, anchor: seq<Line>)
    requires FeedFree(line) && MatchAnchor(line + "\n" + t, 0, anchor) == None
    ensures FindAll(line + "\n" + t, 0, anchor) == ShiftAll(FindAll(t, 0, anchor), |line| + 1)
  {
    hide FindAll, MatchAnchor;
    var p := line + "\n";
    assert forall k :: 0 <= k < |line| ==> (p + t)[k] == line[k];
    assert forall i :: 0 <= i < |p| && LineStart(p + t, i) ==> i == 0;
    FindSkips(p + t, 0, |p|, anchor);
    FindAllShift(p, t, 0, anchor);
  }

  /** A text with the step done at its match. */
  function Placed(t: string, s: Step, m: Match): string
    requires m.from <= m.text <= |t| && m.from <= m.to <= |t|
  {
    var added := Added(t[m.from..m.text], s.lines);
    match s.mode
    case InsertBefore => t[..m.from] + added + t[m.from..]
    case InsertAfter => t[..m.to] + added + t[m.to..]
    case Replace => t[..m.from] + (Kept(t[m.from..m.to]) + added) + t[m.to..]
  }

  lemma ApplyStepIs(t: string, s: Step)
    ensures var found := FindAll(t, 0, s.anchor);
            ApplyStep(t, s) == if |found| == 1 then Some(Placed(t, s, found[0])) else None
  {
    hide FindAll, Kept, Added;
  }

  lemma PlacedShift(p: string, t: string, s: Step, m: Match)
    requires m.from <= m.text <= |t| && m.from <= m.to <= |t|
    ensures Placed(p + t, s, Moved(m, |p|)) == p + Placed(t, s, m)
  {
    hide Kept, Added;
    Slices(p, t, m.from, m.text, m.to);
    var added := Added(t[m.from..m.text], s.lines);
    Behind(p, t[..m.from], added, t[m.from..]);
    Behind(p, t[..m.to], added, t[m.to..]);
    Behind(p, t[..m.from], Kept(t[m.from..m.to]) + added, t[m.to..]);
  }

  lemma ApplyStepShift(p: string, t: string, s: Step)
    requires FindAll(p + t, 0, s.anchor) == ShiftAll(FindAll(t, 0, s.anchor), |p|)
    ensures var out := ApplyStep(t, s); ApplyStep(p + t, s) == if out.Some? then Some(p + out.value) else None
  {
    ApplyStepIs(t, s);
    ApplyStepIs(p + t, s);
    hide FindAll, ApplyStep, Placed, ShiftAll;
    var found := FindAll(t, 0, s.anchor);
    ShiftOne(found, |p|);
    if |found| == 1 { PlacedShift(p, t, s, found[0]); }
  }

  lemma Slices(p: string, t: string, a: nat, b: nat, c: nat)
    requires a <= b <= |t| && a <= c <= |t|
    ensures var n, s := |p|, p + t;
            && s[..n + a] == p + t[..a] && s[n + a..] == t[a..] && s[n + a..n + b] == t[a..b]
            && s[..n + c] == p + t[..c] && s[n + c..] == t[c..] && s[n + a..n + c] == t[a..c]
  {}

  lemma Behind(p: string, a: string, b: string, c: string)
    ensures (p + a) + b + c == p + (a + b + c)
  {}

  // ---- a line behind the prefix ----

  const KEPT_LINE: string := ORIG + "\n"

  /** No anchor starts like a comment. */
  predicate NoComment(s: Step) { s.anchor != [] && s.anchor[0].lit != "" && s.anchor[0].lit[0] != '/' }

  lemma KeptLineFacts()
    ensures |ORIG| == 32 && ORIG[0] == '/' && FeedFree(ORIG) && BreakFree(ORIG)
    ensures KEPT_LINE[0] == '/' && Closed(KEPT_LINE) && KEPT_LINE[|KEPT_LINE| - 1] == '\n'
  {}

  lemma KeptLineUntagged()
    ensures !Contains(KEPT_LINE, TAG)
  {
    var t := KEPT_LINE;
    KeptLineFacts();
    assert forall k :: 0 <= k < 32 ==> t[k] == ORIG[k];
    assert |t| == 33 && forall i :: 0 <= i < 33 && t[i] == ')' ==> i == 30;
    assert |TAG| == 26 && TAG[25] == ')' && TAG[0] == '/' && ORIG[5] == 'R';
    forall k: nat | k <= |t| ensures !OccursAt(t, k, TAG) {
      if OccursAt(t, k, TAG) { TwoChars(t, k, TAG, 0, 25); }
    }
  }

  lemma TwoChars(s: string, k: nat, p: string, a: nat, b: nat)
    requires OccursAt(s, k, p) && a < |p| && b < |p|
    ensures s[k + a] == p[a] && s[k + b] == p[b]
  {
    CharOf(s, k, p, a);
    CharOf(s, k, p, b);
  }

  lemma StepBehindKept(t: string, s: Step)
    requires NoComment(s)
    ensures var out := ApplyStep(t, s);
            ApplyStep(KEPT_LINE + t, s) == if out.Some? then Some(KEPT_LINE + out.value) else None
  {
    KeptLineFacts();
    var k := KEPT_LINE + t;
    assert k[0] == '/' && k == ORIG + "\n" + t;
    NoMatchAt(k, s.anchor);
    BehindLine(ORIG, t, s.anchor);
    ApplyStepShift(KEPT_LINE, t, s);
  }

  lemma NoMatchAt(k: string, anchor: seq<Line>)
    requires anchor != [] && anchor[0].lit != "" && k != "" && k[0] != ' ' && k[0] != anchor[0].lit[0]
    ensures MatchAnchor(k, 0, anchor) == None
  {
    var lit := anchor[0].lit;
    assert |lit| <= |k| ==> k[0..|lit|][0] == k[0];
  }

  lemma {:induction false} StepsBehindKept(t: string, steps: seq<Step>)
    requires forall k :: 0 <= k < |steps| ==> NoComment(steps[k])
    requires ApplySteps(t, steps).1 == Patched
    ensures ApplySteps(KEPT_LINE + t, steps) == (KEPT_LINE + ApplySteps(t, steps).0, Patched)
    decreases |steps|
  {
    if steps != [] {
      StepBehindKept(t, steps[0]);
      hide ApplyStep, NoComment;
      StepsBehindKept(ApplyStep(t, steps[0]).value, steps[1..]);
    }
  }

  /** Every text the patch goes on gives one that does not come back: the same text behind a line that holds the prefix
      of a kept line only. The patch goes on it, and off loses the prefix. */
  lemma {:induction false} KeptLineIsLost(t: string, steps: seq<Step>)
    requires forall k :: 0 <= k < |steps| ==> GoodStep(steps[k]) && NoComment(steps[k])
    requires Apply(t, steps).1 == Patched
    ensures var k := KEPT_LINE + t;
            Apply(k, steps) == (KEPT_LINE + Apply(t, steps).0, Patched) && !NoKeptLine(k)
            && Remove(Apply(k, steps).0) != k
  {
    var k := KEPT_LINE + t;
    KeptLineFacts();
    KeptLineUntagged();
    StepsBehindKept(t, steps);
    assert TAG != "" && BreakFree(TAG);
    NoneAcross(KEPT_LINE, t, TAG);
    OneLine(ORIG);
    FirstPieceCat(KEPT_LINE, t);
    assert StartsWith(KEPT_LINE, ORIG);
    hide ApplySteps, Contains, FirstPiece, OtherPieces, BreakFree, GoodStep, NoComment, StartsWith;
    OffUndoesOn(k, steps);
  }

  // ---- texts given line by line ----

  function Show(ls: seq<string>): string { if ls == [] then "" else ls[0] + "\n" + Show(ls[1..]) }

  predicate PlainLine(l: string) { l != "" && l[0] != ' ' && FeedFree(l) }

  /** No place for an anchor that starts with this literal: the two differ in the first or in the seventh character. */
  predicate Differs(l: string, lit: string) {
    PlainLine(l) && lit != "" && (l[0] != lit[0] || (|l| > 6 && |lit| > 6 && l[6] != lit[6]))
  }

  predicate AllDiffer(ls: seq<string>, lit: string) { forall k :: 0 <= k < |ls| ==> Differs(ls[k], lit) }

  lemma {:induction false} ShowCat(a: seq<string>, b: seq<string>)
    ensures Show(a + b) == Show(a) + Show(b)
  {
    if a == [] {
      assert a + b == b && "" + Show(b) == Show(b);
    } else {
      assert (a + b)[1..] == a[1..] + b;
      ShowCat(a[1..], b);
      assert a[0] + "\n" + (Show(a[1..]) + Show(b)) == a[0] + "\n" + Show(a[1..]) + Show(b);
    }
  }

  lemma {:induction false} ShowClosed(a: seq<string>)
    ensures Closed(Show(a)) && (a != [] <==> Show(a) != "")
  {
    if a != [] { ShowClosed(a[1..]); }
  }

  lemma DiffersHere(l: string, t: string, anchor: seq<Line>)
    requires anchor != [] && Differs(l, anchor[0].lit)
    ensures MatchAnchor(l + "\n" + t, 0, anchor) == None
  {
    var k, lit := l + "\n" + t, anchor[0].lit;
    assert k[0] == l[0] && (|l| > 6 ==> k[6] == l[6]);
    assert |lit| <= |k| ==> k[0..|lit|][0] == k[0] && (|lit| > 6 ==> k[0..|lit|][6] == k[6]);
  }

  lemma ShiftTwice(ms: seq<Match>, a: nat, b: nat)
    ensures ShiftAll(ShiftAll(ms, a), b) == ShiftAll(ms, b + a) && ShiftAll(ms, 0) == ms
  {}

  lemma {:induction false} PassLines(a: seq<string>, t: string, anchor: seq<Line>)
    requires anchor != [] && AllDiffer(a, anchor[0].lit)
    ensures FindAll(Show(a) + t, 0, anchor) == ShiftAll(FindAll(t, 0, anchor), |Show(a)|)
  {
    hide FindAll, MatchAnchor, ShiftAll;
    if a == [] {
      assert Show(a) + t == t;
      ShiftTwice(FindAll(t, 0, anchor), 0, 0);
    } else {
      var rest := Show(a[1..]);
      assert Show(a) + t == a[0] + "\n" + (rest + t);
      assert Differs(a[0], anchor[0].lit);
      DiffersHere(a[0], rest + t, anchor);
      BehindLine(a[0], rest + t, anchor);
      PassLines(a[1..], t, anchor);
      ShiftTwice(FindAll(t, 0, anchor), |rest|, |a[0]| + 1);
    }
  }

  lemma NoneInNothing(anchor: seq<Line>)
    requires anchor != [] && anchor[0].lit != ""
    ensures FindAll("", 0, anchor) == []
  {}

  lemma NoneIn(b: seq<string>, anchor: seq<Line>)
    requires anchor != [] && anchor[0].lit != "" && AllDiffer(b, anchor[0].lit)
    ensures FindAll(Show(b), 0, anchor) == []
  {
    hide FindAll, AllDiffer, ShiftAll;
    PassLines(b, "", anchor);
    NoneInNothing(anchor);
    ShiftOne([], |Show(b)|);
    assert Show(b) + "" == Show(b);
  }

  /** These lines are what the anchor asks for, word by word. */
  predicate Fits(m: seq<string>, anchor: seq<Line>) {
    |m| == |anchor|
    && forall k :: 0 <= k < |m| ==>
                     anchor[k].lit == m[k] && PlainLine(m[k]) && (anchor[k].Open? ==> k == |m| - 1)
  }

  function OpenEnd(anchor: seq<Line>): nat { if anchor != [] && anchor[|anchor| - 1].Open? then 1 else 0 }

  lemma FitsHere(l: string, t: string, line: Line)
    requires line.lit == l && PlainLine(l)
    ensures MatchLine(l + "\n" + t, 0, line) == Some(if line.Open? then |l| else |l| + 1)
  {
    var k := l + "\n" + t;
    assert k[0] == l[0] && k[0..|l|] == l && k[|l|] == '\n';
  }

  /** An anchor goes on behind a line that fits its first one. */
  lemma AnchorBehind(l: string, t: string, anchor: seq<Line>)
    requires anchor != [] && anchor[0].lit == l && PlainLine(l) && (anchor[0].Open? ==> anchor[1..] == [])
    ensures MatchAnchor(l + "\n" + t, 0, anchor)
         == if anchor[0].Open? then Some(|l|) else Shifted(MatchAnchor(t, 0, anchor[1..]), |l| + 1)
  {
    var p := l + "\n";
    FitsHere(l, t, anchor[0]);
    hide MatchLine, MatchAnchor, PlainLine;
    AnchorOn(p + t, 0, anchor);
    if anchor[0].Open? {
      EndsHere(p + t, |l|);
    } else {
      MatchAnchorShift(p, t, 0, anchor[1..]);
    }
  }

  lemma EndsHere(t: string, j: nat)
    requires j <= |t|
    ensures MatchAnchor(t, j, []) == Some(j)
  {}

  lemma {:induction false} FitsMatches(m: seq<string>, rest: string, anchor: seq<Line>)
    requires Fits(m, anchor)
    ensures var e := MatchAnchor(Show(m) + rest, 0, anchor); e.Some? && e.value + OpenEnd(anchor) == |Show(m)|
    decreases |m|
  {
    if m == [] {
      assert anchor == [] && MatchAnchor(Show(m) + rest, 0, anchor) == Some(0);
    } else {
      hide Show, MatchLine, MatchAnchor, Fits, PlainLine, OpenEnd;
      ShowHead(m, rest);
      FitsRest(m, anchor);
      AnchorBehind(m[0], Show(m[1..]) + rest, anchor);
      if !anchor[0].Open? { FitsMatches(m[1..], rest, anchor[1..]); }
    }
  }

  lemma ShowHead(m: seq<string>, rest: string)
    requires m != []
    ensures Show(m) + rest == m[0] + "\n" + (Show(m[1..]) + rest) && |Show(m)| == |m[0]| + 1 + |Show(m[1..])|
  {
    hide Show;
    assert Show(m) == m[0] + "\n" + Show(m[1..]) by { ShowIs(m); }
  }

  lemma ShowIs(m: seq<string>)
    requires m != []
    ensures Show(m) == m[0] + "\n" + Show(m[1..])
  {}

  lemma FitsRest(m: seq<string>, anchor: seq<Line>)
    requires Fits(m, anchor) && m != []
    ensures |anchor| == |m| && anchor[0].lit == m[0] && PlainLine(m[0])
    ensures if anchor[0].Open? then m[1..] == [] && anchor[1..] == [] && Show(m[1..]) == "" && OpenEnd(anchor) == 1
            else Fits(m[1..], anchor[1..]) && OpenEnd(anchor) == OpenEnd(anchor[1..])
  {
    assert |anchor| > 1 ==> anchor[1..][|anchor| - 2] == anchor[|anchor| - 1];
  }

  /** The text of some lines, with the lines of the anchor among them. */
  predicate Ready(a: seq<string>, m: seq<string>, b: seq<string>, anchor: seq<Line>) {
    anchor != [] && Fits(m, anchor) && AllDiffer(a, anchor[0].lit) && AllDiffer(b, anchor[0].lit)
  }

  lemma MatchThenNone(m: seq<string>, b: seq<string>, anchor: seq<Line>)
    requires Ready([], m, b, anchor)
    ensures |Show(m)| >= OpenEnd(anchor)
    ensures FindAll(Show(m) + Show(b), 0, anchor) == [Match(0, 0, |Show(m)| - OpenEnd(anchor))]
  {
    var p, t := Show(m), Show(b);
    var e := MatchesHere(m, t, anchor);
    NoneIn(b, anchor);
    hide *;
    ShowClosed(m);
    FirstLine(m);
    FindAllIs(p + t, 0, anchor);
    if e < |p| { FindSkips(p + t, e, |p|, anchor); }
    FindAllShift(p, t, 0, anchor);
    ShiftOne(FindAll(t, 0, anchor), |p|);
    FromHere(p + t, e, anchor);
  }

  lemma FromHere(t: string, j: nat, anchor: seq<Line>)
    requires j <= |t|
    ensures From(t, j, anchor) == FindAll(t, j, anchor)
  {
    hide FindAll;
  }

  lemma MatchesHere(m: seq<string>, t: string, anchor: seq<Line>) returns (e: nat)
    requires anchor != [] && Fits(m, anchor)
    ensures m != [] && PlainLine(m[0]) && |Show(m)| >= OpenEnd(anchor) && e == |Show(m)| - OpenEnd(anchor)
    ensures var k := Show(m) + t;
            && MatchAt(k, 0, anchor) == [Match(0, 0, e)] && NextAt(k, 0, anchor) == e
            && (forall i :: e <= i < |Show(m)| ==> !LineStart(k, i))
  {
    var p := Show(m);
    FitsMatches(m, t, anchor);
    e := |p| - OpenEnd(anchor);
    assert PlainLine(m[0]) && PlainLine(m[|m| - 1]);
    FirstLine(m);
    LastLine(m);
    assert (p + t)[0] == p[0] && SpacesEnd(p + t, 0) == 0;
    assert e < |p| ==> (p + t)[e - 1] == p[e - 1];
    hide MatchAnchor, Fits, Show;
  }

  lemma FirstLine(m: seq<string>)
    requires m != [] && PlainLine(m[0])
    ensures Show(m) != "" && Show(m)[0] == m[0][0] && |Show(m)| > 1
  {}

  lemma {:induction false} LastLine(m: seq<string>)
    requires m != [] && PlainLine(m[|m| - 1])
    ensures |Show(m)| >= 2 && Show(m)[|Show(m)| - 2] == m[|m| - 1][|m[|m| - 1]| - 1] != '\n'
  {
    if |m| > 1 { LastLine(m[1..]); }
  }

  lemma OneMatch(a: seq<string>, m: seq<string>, b: seq<string>, anchor: seq<Line>)
    requires Ready(a, m, b, anchor)
    ensures |Show(m)| >= OpenEnd(anchor)
    ensures var n := |Show(a)|;
            FindAll(Show(a) + (Show(m) + Show(b)), 0, anchor) == [Match(n, n, n + |Show(m)| - OpenEnd(anchor))]
  {
    hide *;
    ReadyParts(a, m, b, anchor);
    MatchThenNone(m, b, anchor);
    PassLines(a, Show(m) + Show(b), anchor);
    ShiftOne(FindAll(Show(m) + Show(b), 0, anchor), |Show(a)|);
    MovedIs(Match(0, 0, |Show(m)| - OpenEnd(anchor)), |Show(a)|);
  }

  lemma ReadyParts(a: seq<string>, m: seq<string>, b: seq<string>, anchor: seq<Line>)
    requires Ready(a, m, b, anchor)
    ensures Ready([], m, b, anchor) && anchor != [] && AllDiffer(a, anchor[0].lit)
  {}

  lemma MovedIs(m: Match, n: nat)
    ensures Moved(m, n) == Match(n + m.from, n + m.text, n + m.to)
  {}

  // ---- a text the steps go on ----

  function Tagged(lines: seq<string>): seq<string> {
    if lines == [] then [] else [lines[0] + TAG_END] + Tagged(lines[1..])
  }

  function KeptLines(m: seq<string>): seq<string> { if m == [] then [] else [ORIG + m[0]] + KeptLines(m[1..]) }

  /** The lines of the anchor with the step done on them. */
  function Done(m: seq<string>, s: Step): seq<string> {
    match s.mode
    case InsertBefore => Tagged(s.lines) + m
    case InsertAfter => m + Tagged(s.lines)
    case Replace => KeptLines(m) + Tagged(s.lines)
  }

  lemma {:induction false} AddedShows(lines: seq<string>)
    ensures Added("", lines) == Show(Tagged(lines))
  {
    if lines != [] {
      AddedShows(lines[1..]);
      var l := lines[0] + TAG_END;
      assert Tagged(lines)[1..] == Tagged(lines[1..]) && "" + lines[0] == lines[0];
      assert Added("", lines) == l + "\n" + Added("", lines[1..]);
    }
  }

  lemma {:induction false} KeptShows(m: seq<string>)
    requires forall k :: 0 <= k < |m| ==> BreakFree(m[k])
    ensures Kept(Show(m)) == Show(KeptLines(m))
  {
    if m != [] {
      var rest := Show(m[1..]);
      KeptShows(m[1..]);
      OneLine(m[0]);
      FirstPieceCat(m[0] + "\n", rest);
      hide FirstPiece, OtherPieces, BreakFree;
      assert "" + rest == rest && KeptLines(m)[1..] == KeptLines(m[1..]);
      assert Kept(Show(m)) == ORIG + (m[0] + "\n") + Kept(rest);
      assert ORIG + (m[0] + "\n") == (ORIG + m[0]) + "\n";
    }
  }

  /** A step on a text with its anchor's lines in one place. */
  lemma StepOn(a: seq<string>, m: seq<string>, b: seq<string>, s: Step)
    requires Ready(a, m, b, s.anchor) && (s.mode != InsertBefore ==> OpenEnd(s.anchor) == 0)
    requires s.mode == Replace ==> forall k :: 0 <= k < |m| ==> BreakFree(m[k])
    ensures ApplyStep(Show(a) + (Show(m) + Show(b)), s) == Some(Show(a) + (Show(Done(m, s)) + Show(b)))
  {
    var x, y, z := Show(a), Show(m), Show(b);
    hide *;
    OneMatch(a, m, b, s.anchor);
    ApplyStepIs(x + (y + z), s);
    DoneShows(m, s);
    PlacedThere(x, y, z, s, Match(|x|, |x|, |x| + |y| - OpenEnd(s.anchor)));
  }

  lemma DoneShows(m: seq<string>, s: Step)
    requires s.mode == Replace ==> forall k :: 0 <= k < |m| ==> BreakFree(m[k])
    ensures Show(Done(m, s)) == DoneText(Show(m), s)
  {
    AddedShows(s.lines);
    if s.mode == Replace { KeptShows(m); }
    var tags := Tagged(s.lines);
    ShowCat(tags, m);
    ShowCat(m, tags);
    ShowCat(KeptLines(m), tags);
    hide Show, Tagged, KeptLines, Kept, Added, BreakFree;
  }

  function DoneText(y: string, s: Step): string {
    var added := Added("", s.lines);
    match s.mode
    case InsertBefore => added + y
    case InsertAfter => y + added
    case Replace => Kept(y) + added
  }

  lemma PlacedThere(x: string, y: string, z: string, s: Step, m: Match)
    requires m.from == m.text == |x| && |x| <= m.to <= |x| + |y| && (s.mode != InsertBefore ==> m.to == |x| + |y|)
    ensures Placed(x + (y + z), s, m) == x + (DoneText(y, s) + z)
  {
    var t, added := x + (y + z), Added("", s.lines);
    SlicesThere(x, y, z);
    Regrouped(x, added, y, z);
    Regrouped(x, y, added, z);
    Regrouped(x, Kept(y) + added, z, "");
    hide Added, Kept;
    assert t[m.from..m.text] == "";
  }

  lemma SlicesThere(x: string, y: string, z: string)
    ensures var t := x + (y + z);
            && t[..|x|] == x && t[|x|..] == y + z
            && t[..|x| + |y|] == x + y && t[|x| + |y|..] == z && t[|x|..|x| + |y|] == y
  {}

  lemma Regrouped(x: string, a: string, b: string, z: string)
    ensures x + a + (b + z) == x + ((a + b) + z) && (x + a) + b + z == x + ((a + b) + z)
    ensures (x + a) + b == x + (a + b)
  {}

  function Flat(blocks: seq<seq<string>>): seq<string> {
    if blocks == [] then [] else blocks[0] + Flat(blocks[1..])
  }

  /** Each block holds the lines of its step's anchor. */
  predicate Blocks(steps: seq<Step>, blocks: seq<seq<string>>) {
    |steps| == |blocks| && forall k :: 0 <= k < |steps| ==> BlockOf(steps[k], blocks[k])
  }

  predicate BlockOf(s: Step, m: seq<string>) {
    && s.anchor != [] && Fits(m, s.anchor) && (s.mode != InsertBefore ==> OpenEnd(s.anchor) == 0)
    && (s.mode == Replace ==> forall k :: 0 <= k < |m| ==> BreakFree(m[k]))
  }

  /** No anchor has a place before its block, when the steps before are done, or behind it. */
  predicate Separate(steps: seq<Step>, blocks: seq<seq<string>>)
    requires Blocks(steps, blocks)
  {
    && (forall j, k :: 0 <= j < k < |steps| ==> AllDiffer(Done(blocks[j], steps[j]), steps[k].anchor[0].lit))
    && (forall j, k :: 0 <= j < k < |steps| ==> AllDiffer(blocks[k], steps[j].anchor[0].lit))
  }

  predicate Clear(done: seq<string>, steps: seq<Step>) {
    forall k :: 0 <= k < |steps| ==> steps[k].anchor != [] && AllDiffer(done, steps[k].anchor[0].lit)
  }

  lemma {:induction false} FlatDiffers(blocks: seq<seq<string>>, lit: string)
    requires forall k :: 0 <= k < |blocks| ==> AllDiffer(blocks[k], lit)
    ensures AllDiffer(Flat(blocks), lit)
  {
    if blocks != [] {
      FlatDiffers(blocks[1..], lit);
      DiffersCat(blocks[0], Flat(blocks[1..]), lit);
    }
  }

  lemma DiffersCat(a: seq<string>, b: seq<string>, lit: string)
    requires AllDiffer(a, lit) && AllDiffer(b, lit)
    ensures AllDiffer(a + b, lit)
  {
    hide Differs;
  }

  lemma FirstDone(done: seq<string>, steps: seq<Step>, blocks: seq<seq<string>>)
    requires steps != [] && Blocks(steps, blocks) && Separate(steps, blocks) && Clear(done, steps)
    ensures BlockOf(steps[0], blocks[0]) && Ready(done, blocks[0], Flat(blocks[1..]), steps[0].anchor)
    ensures Blocks(steps[1..], blocks[1..]) && Separate(steps[1..], blocks[1..])
    ensures Clear(done + Done(blocks[0], steps[0]), steps[1..])
  {
    hide Done, AllDiffer, Fits, OpenEnd;
    assert BlockOf(steps[0], blocks[0]);
    FlatDiffers(blocks[1..], steps[0].anchor[0].lit);
    forall k | 0 <= k < |steps[1..]|
      ensures BlockOf(steps[1..][k], blocks[1..][k])
      ensures AllDiffer(done + Done(blocks[0], steps[0]), steps[1..][k].anchor[0].lit)
    {
      assert BlockOf(steps[k + 1], blocks[k + 1]);
      DiffersCat(done, Done(blocks[0], steps[0]), steps[k + 1].anchor[0].lit);
    }
  }

  /** The steps go on a text of separate blocks, one for each anchor. */
  lemma {:induction false} StepsGoOn(done: seq<string>, steps: seq<Step>, blocks: seq<seq<string>>)
    requires Blocks(steps, blocks) && Separate(steps, blocks) && Clear(done, steps)
    ensures ApplySteps(Show(done) + Show(Flat(blocks)), steps).1 == Patched
    decreases |steps|
  {
    if steps != [] {
      var s, m, rest := steps[0], blocks[0], Flat(blocks[1..]);
      FirstDone(done, steps, blocks);
      ShowCat(m, rest);
      StepOn(done, m, rest, s);
      ShowCat(done, Done(m, s));
      FlatIs(blocks);
      var out := Show(done) + (Show(Done(m, s)) + Show(rest));
      StepsOn(Show(done) + (Show(m) + Show(rest)), steps, out);
      hide *;
      StepsGoOn(done + Done(m, s), steps[1..], blocks[1..]);
      Regroup(Show(done), Show(Done(m, s)), Show(rest));
    }
  }

  lemma FlatIs(blocks: seq<seq<string>>)
    requires blocks != []
    ensures Flat(blocks) == blocks[0] + Flat(blocks[1..])
  {}

  lemma StepsOn(t: string, steps: seq<Step>, out: string)
    requires steps != [] && ApplyStep(t, steps[0]) == Some(out)
    ensures ApplySteps(t, steps) == ApplySteps(out, steps[1..])
  {
    hide ApplyStep;
  }
}
