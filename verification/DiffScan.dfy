/** The line walk of `scanDiff` in scripts/pre-pr-review-scan.ts.

    The walk attributes each line of a unified diff to a file and a line number by counting down the two counts of the
    hunk header. An event is one thing it does: apply the content rules to a line, or the path rules to a path. */
module DiffScan {
  import opened Options
  import opened Lines
  import opened Sequences
  import opened Strings
  import Decimals

  datatype Where =
    | Removed(file: string, no: int)
    | Added(file: string, no: int)
    | Context(file: string, no: int)
    | Metadata(file: string)
    | HunkHeader(file: string, no: int)
    | DiffHeader(file: string)

  datatype Event = PathRules(path: string) | ContentRules(at: Where, line: string)

  datatype State = State(file: string, oldLeft: int, newLeft: int, oldNo: int, newNo: int)

  const START: State := State("(diff header)", 0, 0, 0, 0)

  const DEV_NULL: string := "/dev/null"

  predicate JsSpace(c: char) {
    c == '\t' || c == '\n' || c == '\U{0B}' || c == '\U{0C}' || c == '\r' || c == ' ' || c == '\U{A0}'
    || c == '\U{1680}' || '\U{2000}' <= c <= '\U{200A}' || c == '\U{2028}' || c == '\U{2029}' || c == '\U{202F}'
    || c == '\U{205F}' || c == '\U{3000}' || c == '\U{FEFF}'
  }

  /** What `.` does not match. */
  predicate LineEnder(c: char) { c == '\n' || c == '\r' || c == '\U{2028}' || c == '\U{2029}' }

  predicate DotAll(s: string) { forall k :: 0 <= k < |s| ==> !LineEnder(s[k]) }

  // ---- headers ----

  datatype Ranges = Ranges(oldNo: nat, oldCount: nat, newNo: nat, newCount: nat)

  /** A range `start` or `start,count` at `j` (a missing count is 1), and where it ends. */
  function ParseRange(s: string, j: nat): (r: Option<(nat, nat, nat)>)
    requires j <= |s|
    ensures r.Some? ==> j < r.value.2 <= |s|
  {
    var e := Decimals.DigitsEnd(s, j);
    if e == j then None
    else
      var start := Decimals.Value(s[j..e]);
      if e < |s| && s[e] == ',' then
        var f := Decimals.DigitsEnd(s, e + 1);
        if f == e + 1 then None else Some((start, Decimals.Value(s[e + 1..f]), f))
      else Some((start, 1, e))
  }

  /** The hunk header pattern: `@@ -range +range @@` at the start of the line. */
  function ParseHunk(line: string): Option<Ranges> {
    if !OccursAt(line, 0, "@@ -") then None
    else
      var a := ParseRange(line, 4);
      if a.None? || !OccursAt(line, a.value.2, " +") then None
      else
        var b := ParseRange(line, a.value.2 + 2);
        if b.None? || !OccursAt(line, b.value.2, " @@") then None
        else Some(Ranges(a.value.0, a.value.1, b.value.0, b.value.1))
  }

  /** The last place of `p` at or before `j`. */
  function LastIndex(s: string, p: string, j: nat): (r: Option<nat>)
    ensures r.Some? ==> OccursAt(s, r.value, p)
  {
    if OccursAt(s, j, p) then Some(j) else if j == 0 then None else LastIndex(s, p, j - 1)
  }

  const GIT: string := "diff --git "

  const HEADS: seq<string> := ["--- ", "+++ ", "rename from ", "rename to ", "copy from ", "copy to "]

  /** The path of a header line with one of the six prefixes; the prefixes exclude one another. */
  function HeadPath(line: string, k: nat): Option<string>
    requires k <= |HEADS|
    decreases |HEADS| - k
  {
    if k == |HEADS| then None
    else if StartsWith(line, HEADS[k]) then
      if DotAll(line[|HEADS[k]|..]) then Some(line[|HEADS[k]|..]) else None
    else HeadPath(line, k + 1)
  }

  /** The file a `+++` path names: without the `b/` prefix and the quotes git may put around. */
  function PlusFile(path: string): string {
    var p := if StartsWith(path, "\"b/") then path[3..] else if StartsWith(path, "b/") then path[2..] else path;
    if p != "" && p[|p| - 1] == '"' then p[..|p| - 1] else p
  }

  // ---- one line ----

  predicate InHunk(s: State) { s.oldLeft > 0 || s.newLeft > 0 }

  function HunkLine(s: State, line: string): Option<(State, Where)> {
    if !InHunk(s) then None
    else if StartsWith(line, "-") then
      Some((s.(oldNo := s.oldNo + 1, oldLeft := s.oldLeft - 1), Removed(s.file, s.oldNo)))
    else if StartsWith(line, "+") then
      Some((s.(newNo := s.newNo + 1, newLeft := s.newLeft - 1), Added(s.file, s.newNo)))
    else if StartsWith(line, " ") || line == "" then
      Some((State(s.file, s.oldLeft - 1, s.newLeft - 1, s.oldNo + 1, s.newNo + 1), Context(s.file, s.newNo)))
    else if StartsWith(line, "\\") then Some((s, Metadata(s.file)))
    else None
  }

  /** A line outside a hunk: the state, where the line belongs, and the paths it names. */
  function HeaderLine(s0: State, line: string): (State, Where, seq<string>) {
    var s := s0.(oldLeft := 0, newLeft := 0);
    var hunk := ParseHunk(line);
    if hunk.Some? then
      var h := hunk.value;
      (State(s.file, h.oldCount, h.newCount, h.oldNo, h.newNo), HunkHeader(s.file, h.newNo), [])
    else if StartsWith(line, GIT) then
      var rest := line[|GIT|..];
      var cut := LastIndex(rest, " b/", |rest|);
      if cut.Some? && cut.value > 0 then
        var file := rest[cut.value + 3..];
        (s.(file := file), DiffHeader(file), [rest[..cut.value], rest[cut.value + 1..]])
      else (s, DiffHeader(s.file), [rest])
    else
      var head := HeadPath(line, 0);
      if head.None? then (s, DiffHeader(s.file), [])
      else
        var path := Trim(JsSpace, head.value);
        var file := if StartsWith(line, "+++ ") && path != DEV_NULL then PlusFile(path) else s.file;
        (s.(file := file), DiffHeader(file), [head.value])
  }

  function PathEvents(paths: seq<string>): seq<Event>
    decreases |paths|
  {
    if paths == [] then [] else [PathRules(paths[0])] + PathEvents(paths[1..])
  }

  function Step(s: State, line: string): (State, seq<Event>) {
    var h := HunkLine(s, line);
    if h.Some? then (h.value.0, [ContentRules(h.value.1, line)])
    else
      var (s', where, paths) := HeaderLine(s, line);
      (s', PathEvents(paths) + [ContentRules(where, line)])
  }

  function Run(s: State, lines: seq<string>): (State, seq<Event>)
    decreases |lines|
  {
    if lines == [] then (s, [])
    else
      var (s1, es) := Step(s, lines[0]);
      var (s2, fs) := Run(s1, lines[1..]);
      (s2, es + fs)
  }

  function Scan(text: string): seq<Event> { Run(START, Split(text)).1 }

  /** One turn of the loop, on the counters. */
  method LineTurn(line: string, file: string, oldLeft: int, newLeft: int, oldNo: int, newNo: int)
    returns (file': string, oldLeft': int, newLeft': int, oldNo': int, newNo': int, events: seq<Event>)
    ensures Step(State(file, oldLeft, newLeft, oldNo, newNo), line)
         == (State(file', oldLeft', newLeft', oldNo', newNo'), events)
  {
    hide HeaderLine, PathEvents;
    file', oldLeft', newLeft', oldNo', newNo' := file, oldLeft, newLeft, oldNo, newNo;
    var inHunk := oldLeft > 0 || newLeft > 0;
    if inHunk && StartsWith(line, "-") {
      events := [ContentRules(Removed(file, oldNo), line)];
      oldNo', oldLeft' := oldNo + 1, oldLeft - 1;
    } else if inHunk && StartsWith(line, "+") {
      events := [ContentRules(Added(file, newNo), line)];
      newNo', newLeft' := newNo + 1, newLeft - 1;
    } else if inHunk && (StartsWith(line, " ") || line == "") {
      events := [ContentRules(Context(file, newNo), line)];
      oldNo', newNo', oldLeft', newLeft' := oldNo + 1, newNo + 1, oldLeft - 1, newLeft - 1;
    } else if inHunk && StartsWith(line, "\\") {
      events := [ContentRules(Metadata(file), line)];
    } else {
      var (s, where, paths) := HeaderLine(State(file, oldLeft, newLeft, oldNo, newNo), line);
      file', oldLeft', newLeft', oldNo', newNo' := s.file, s.oldLeft, s.newLeft, s.oldNo, s.newNo;
      events := PathEvents(paths) + [ContentRules(where, line)];
    }
  }

  /** The loop of scanDiff. */
  method ScanDiff(text: string) returns (events: seq<Event>)
    ensures events == Scan(text)
  {
    hide Step;
    var lines := Split(text);
    var file, oldLeft: int, newLeft: int, oldNo: int, newNo: int := START.file, 0, 0, 0, 0;
    events := [];
    for k := 0 to |lines|
      invariant events + Run(State(file, oldLeft, newLeft, oldNo, newNo), lines[k..]).1 == Run(START, lines).1
    {
      RunNext(State(file, oldLeft, newLeft, oldNo, newNo), lines, k);
      var es;
      file, oldLeft, newLeft, oldNo, newNo, es := LineTurn(lines[k], file, oldLeft, newLeft, oldNo, newNo);
      events := events + es;
    }
  }

  lemma RunNext(s: State, lines: seq<string>, k: nat)
    requires k < |lines|
    ensures Run(s, lines[k..]).1 == Step(s, lines[k]).1 + Run(Step(s, lines[k]).0, lines[k + 1..]).1
  {
    hide Step;
    assert lines[k..][0] == lines[k] && lines[k..][1..] == lines[k + 1..];
  }

  // ---- on any text ----

  function ContentLines(es: seq<Event>): seq<string>
    decreases |es|
  {
    if es == [] then []
    else (if es[0].ContentRules? then [es[0].line] else []) + ContentLines(es[1..])
  }

  lemma {:induction false} ContentLinesCat(a: seq<Event>, b: seq<Event>)
    ensures ContentLines(a + b) == ContentLines(a) + ContentLines(b)
    decreases |a|
  {
    if a == [] {
      assert a + b == b;
    } else {
      assert (a + b)[1..] == a[1..] + b;
      ContentLinesCat(a[1..], b);
    }
  }

  lemma {:induction false} NoContentInPaths(paths: seq<string>)
    ensures ContentLines(PathEvents(paths)) == []
    decreases |paths|
  {
    if paths != [] { NoContentInPaths(paths[1..]); }
  }

  lemma {:induction false} RunContent(s: State, lines: seq<string>)
    ensures ContentLines(Run(s, lines).1) == lines
    decreases |lines|
  {
    if lines != [] {
      var (s', es) := Step(s, lines[0]);
      assert ContentLines(es) == [lines[0]] by {
        hide ParseHunk, LastIndex, HeadPath, Trim;
        if HunkLine(s, lines[0]).None? {
          var (s1, where, paths) := HeaderLine(s, lines[0]);
          NoContentInPaths(paths);
          ContentLinesCat(PathEvents(paths), [ContentRules(where, lines[0])]);
        }
      }
      hide Step;
      RunContent(s', lines[1..]);
      ContentLinesCat(es, Run(s', lines[1..]).1);
    }
  }

  /** On any text, well formed or not, the content rules run on every line, once and in order. */
  lemma {:induction false} EveryLineIsScanned(text: string)
    ensures ContentLines(Scan(text)) == Split(text)
  {
    RunContent(START, Split(text));
  }

  // ---- printed diffs ----

  /** A line of a hunk; the last form is the note that a file has no line feed at its end. */
  datatype Body = Del(s: string) | Ins(s: string) | Ctx(s: string) | NoEol(s: string)

  /** A hunk; its header may leave out a count of one. */
  datatype Hunk = Hunk(oldNo: nat, newNo: nat, body: seq<Body>, section: string, shortOld: bool, shortNew: bool)

  /** How the new side is named: not at all (a rename, a mode change), by its path (a tab follows when it has a space),
      or as /dev/null (a deletion). */
  datatype Plus = Unnamed | Named(tab: bool) | Null

  datatype FileDiff = FileDiff(oldPath: string, newPath: string, extra: seq<string>, minus: string, plus: Plus,
                               hunks: seq<Hunk>)

  function Olds(body: seq<Body>): nat {
    if body == [] then 0 else (if body[0].Del? || body[0].Ctx? then 1 else 0) + Olds(body[1..])
  }

  function News(body: seq<Body>): nat {
    if body == [] then 0 else (if body[0].Ins? || body[0].Ctx? then 1 else 0) + News(body[1..])
  }

  function PrintBodyLine(b: Body): string {
    match b
    case Del(s) => "-" + s
    case Ins(s) => "+" + s
    case Ctx(s) => " " + s
    case NoEol(s) => "\\" + s
  }

  function PrintBody(body: seq<Body>): seq<string> {
    if body == [] then [] else [PrintBodyLine(body[0])] + PrintBody(body[1..])
  }

  function PrintRange(start: nat, count: nat, short: bool): string {
    Decimals.Print(start) + if short then "" else "," + Decimals.Print(count)
  }

  function HunkHeaderLine(h: Hunk): string {
    "@@ -" + (PrintRange(h.oldNo, Olds(h.body), h.shortOld)
              + (" +" + (PrintRange(h.newNo, News(h.body), h.shortNew) + (" @@" + h.section))))
  }

  function PrintHunks(hunks: seq<Hunk>): seq<string> {
    if hunks == [] then [] else [HunkHeaderLine(hunks[0])] + PrintBody(hunks[0].body) + PrintHunks(hunks[1..])
  }

  function GitLine(f: FileDiff): string { "diff --git " + ("a/" + f.oldPath + (" b/" + f.newPath)) }

  function PlusLines(f: FileDiff): seq<string> {
    match f.plus
    case Unnamed => []
    case Named(tab) => ["--- " + f.minus, "+++ " + ("b/" + f.newPath + if tab then "\t" else "")]
    case Null => ["--- " + f.minus, "+++ " + DEV_NULL]
  }

  function PrintFile(f: FileDiff): seq<string> { [GitLine(f)] + f.extra + PlusLines(f) + PrintHunks(f.hunks) }

  function PrintDiff(d: seq<FileDiff>): seq<string> {
    if d == [] then [] else PrintFile(d[0]) + PrintDiff(d[1..])
  }

  // ---- what their lines are ----

  /** The lines of a hunk body, each with its own number on its own side. */
  function BodyEvents(file: string, oldNo: nat, newNo: nat, body: seq<Body>): seq<Event>
    decreases |body|
  {
    if body == [] then []
    else
      var line, rest := PrintBodyLine(body[0]), body[1..];
      match body[0]
      case Del(_) => [ContentRules(Removed(file, oldNo), line)] + BodyEvents(file, oldNo + 1, newNo, rest)
      case Ins(_) => [ContentRules(Added(file, newNo), line)] + BodyEvents(file, oldNo, newNo + 1, rest)
      case Ctx(_) => [ContentRules(Context(file, newNo), line)] + BodyEvents(file, oldNo + 1, newNo + 1, rest)
      case NoEol(_) =>
        [ContentRules(if Olds(rest) + News(rest) > 0 then Metadata(file) else DiffHeader(file), line)]
        + BodyEvents(file, oldNo, newNo, rest)
  }

  function HunkEvents(file: string, hunks: seq<Hunk>): seq<Event>
    decreases |hunks|
  {
    if hunks == [] then []
    else
      var h := hunks[0];
      [ContentRules(HunkHeader(file, h.newNo), HunkHeaderLine(h))] + BodyEvents(file, h.oldNo, h.newNo, h.body)
      + HunkEvents(file, hunks[1..])
  }

  /** The lines between the git header and the first hunk that change no attribution. */
  function ExtraEvents(file: string, extra: seq<string>): seq<Event>
    decreases |extra|
  {
    if extra == [] then []
    else
      var head := HeadPath(extra[0], 0);
      (if head.Some? then [PathRules(head.value)] else []) + [ContentRules(DiffHeader(file), extra[0])]
      + ExtraEvents(file, extra[1..])
  }

  /** The new path as the git header line gives it: what stands behind its last ` b/`. */
  function GitFile(f: FileDiff): string {
    var rest := "a/" + f.oldPath + (" b/" + f.newPath);
    var cut := LastIndex(rest, " b/", |rest|);
    if cut.Some? then rest[cut.value + 3..] else ""
  }

  /** The file the hunks belong to. */
  function HunkFile(f: FileDiff): string { if f.plus.Named? then f.newPath else GitFile(f) }

  function GitEvents(f: FileDiff): seq<Event> {
    var rest := "a/" + f.oldPath + (" b/" + f.newPath);
    var cut := LastIndex(rest, " b/", |rest|);
    if cut.None? then []
    else
      [PathRules(rest[..cut.value]), PathRules(rest[cut.value + 1..]), ContentRules(DiffHeader(GitFile(f)), GitLine(f))]
  }

  function PlusEvents(f: FileDiff): seq<Event> {
    if f.plus.Unnamed? then []
    else
      var lines := PlusLines(f);
      [PathRules(f.minus), ContentRules(DiffHeader(GitFile(f)), lines[0]),
       PathRules(lines[1][4..]), ContentRules(DiffHeader(HunkFile(f)), lines[1])]
  }

  function FileEvents(f: FileDiff): seq<Event> {
    GitEvents(f) + ExtraEvents(GitFile(f), f.extra) + PlusEvents(f) + HunkEvents(HunkFile(f), f.hunks)
  }

  function DiffEvents(d: seq<FileDiff>): seq<Event>
    decreases |d|
  {
    if d == [] then [] else FileEvents(d[0]) + DiffEvents(d[1..])
  }

  // ---- which diffs ----

  predicate QuietLine(line: string) {
    ParseHunk(line).None? && !StartsWith(line, GIT) && !StartsWith(line, "+++ ")
  }

  /** A short range stands for a count of one. */
  predicate GoodHunk(h: Hunk) { (h.shortOld ==> Olds(h.body) == 1) && (h.shortNew ==> News(h.body) == 1) }

  /** A path that a `+++` line names as it is: unquoted, not ending in white space. */
  predicate PlainPath(p: string) { DotAll(p) && p != "" && !JsSpace(p[|p| - 1]) && p[|p| - 1] != '"' }

  predicate GoodFile(f: FileDiff) {
    && (forall k :: 0 <= k < |f.extra| ==> QuietLine(f.extra[k]))
    && (forall k :: 0 <= k < |f.hunks| ==> GoodHunk(f.hunks[k]))
    && DotAll(f.minus) && (f.plus.Named? ==> PlainPath(f.newPath))
  }

  // ---- the walk over them ----

  lemma {:induction false} RunCat(s: State, a: seq<string>, b: seq<string>)
    ensures var (s1, es) := Run(s, a);
            var (s2, fs) := Run(s1, b);
            Run(s, a + b) == (s2, es + fs)
    decreases |a|
  {
    hide Step;
    if a == [] {
      assert a + b == b && [] + Run(s, b).1 == Run(s, b).1;
    } else {
      assert (a + b)[1..] == a[1..] + b;
      var (s0, es) := Step(s, a[0]);
      RunCat(s0, a[1..], b);
      Regroup(es, Run(s0, a[1..]).1, Run(Run(s0, a[1..]).0, b).1);
    }
  }

  /** A hunk line is counted on its side; the counts left are those of the lines left. */
  lemma BodyStep(file: string, oldNo: nat, newNo: nat, body: seq<Body>)
    requires body != []
    ensures var rest, line := body[1..], PrintBodyLine(body[0]);
            var o, n := if body[0].Del? || body[0].Ctx? then 1 else 0, if body[0].Ins? || body[0].Ctx? then 1 else 0;
            var (s, es) := Step(State(file, Olds(body), News(body), oldNo, newNo), line);
            s == State(file, Olds(rest), News(rest), oldNo + o, newNo + n)
            && BodyEvents(file, oldNo, newNo, body) == es + BodyEvents(file, oldNo + o, newNo + n, rest)
  {
    hide HeaderLine, PathEvents;
    var s, line := State(file, Olds(body), News(body), oldNo, newNo), PrintBodyLine(body[0]);
    assert line[0] == match body[0] case Del(_) => '-' case Ins(_) => '+' case Ctx(_) => ' ' case NoEol(_) => '\\';
    if body[0].NoEol? && !InHunk(s) {
      BackslashLine(s, line);
    }
  }

  lemma {:induction false} ScanBody(file: string, oldNo: nat, newNo: nat, body: seq<Body>)
    ensures Run(State(file, Olds(body), News(body), oldNo, newNo), PrintBody(body))
         == (State(file, 0, 0, oldNo + Olds(body), newNo + News(body)), BodyEvents(file, oldNo, newNo, body))
    decreases |body|
  {
    if body != [] {
      BodyStep(file, oldNo, newNo, body);
      hide Step, BodyEvents;
      assert PrintBody(body)[1..] == PrintBody(body[1..]);
      ScanBody(file, oldNo + (if body[0].Del? || body[0].Ctx? then 1 else 0),
               newNo + (if body[0].Ins? || body[0].Ctx? then 1 else 0), body[1..]);
    }
  }

  lemma BackslashLine(s: State, line: string)
    requires line != "" && line[0] == '\\' && !InHunk(s)
    ensures Step(s, line) == (s.(oldLeft := 0, newLeft := 0), [ContentRules(DiffHeader(s.file), line)])
  {
    OtherStart(line, "@@ -");
    OtherStart(line, GIT);
    OtherStart(line, "+++ ");
    NoHead(line, 0);
    assert QuietLine(line);
    hide Step, HeadPath, QuietLine;
    QuietStep(s, line);
    assert [] + [ContentRules(DiffHeader(s.file), line)] == [ContentRules(DiffHeader(s.file), line)];
  }

  lemma OtherStart(line: string, p: string)
    requires line != "" && p != "" && line[0] != p[0]
    ensures !StartsWith(line, p) && !OccursAt(line, 0, p)
  {}

  lemma {:induction false} NoHead(line: string, k: nat)
    requires line != "" && line[0] == '\\' && k <= |HEADS|
    ensures HeadPath(line, k) == None
    decreases |HEADS| - k
  {
    if k < |HEADS| {
      OtherStart(line, HEADS[k]);
      NoHead(line, k + 1);
    }
  }

  // ---- hunk headers ----

  lemma RangeParses(s: string, j: nat, start: nat, count: nat, short: bool, tail: string)
    requires j <= |s| && s[j..] == PrintRange(start, count, short) + tail && (short ==> count == 1)
    requires tail != "" && tail[0] == ' '
    ensures ParseRange(s, j) == Some((start, count, j + |PrintRange(start, count, short)|))
  {
    hide Decimals.Print, Decimals.Value;
    var a := Decimals.Print(start);
    Decimals.PrintValue(start);
    if short {
      assert s[j..] == a + tail;
      DigitsRun(s, j, a, tail);
    } else {
      var b := Decimals.Print(count);
      Decimals.PrintValue(count);
      assert s[j..] == a + ("," + (b + tail));
      DigitsRun(s, j, a, "," + (b + tail));
      var e := j + |a|;
      assert s[e] == ("," + (b + tail))[0];
      assert s[e + 1..] == b + tail;
      DigitsRun(s, e + 1, b, tail);
    }
  }

  lemma DigitsRun(s: string, j: nat, a: string, tail: string)
    requires j <= |s| && s[j..] == a + tail && a != "" && Decimals.AllDigits(a)
    requires tail != "" && !Decimals.IsDigit(tail[0])
    ensures Decimals.DigitsEnd(s, j) == j + |a| < |s| && s[j..j + |a|] == a && s[j + |a|] == tail[0]
    ensures s[j + |a|..] == tail
  {
    var e := j + |a|;
    assert forall k :: j <= k < e ==> s[k] == s[j..][k - j] == a[k - j];
    assert s[e] == s[j..][|a|] == tail[0];
    Decimals.DigitsEndIs(s, j, e);
  }

  lemma {:induction false} HunkHeaderParses(h: Hunk)
    requires GoodHunk(h)
    ensures ParseHunk(HunkHeaderLine(h)) == Some(Ranges(h.oldNo, Olds(h.body), h.newNo, News(h.body)))
  {
    hide PrintRange, Olds, News, ParseRange;
    var line := HunkHeaderLine(h);
    var a, b := PrintRange(h.oldNo, Olds(h.body), h.shortOld), PrintRange(h.newNo, News(h.body), h.shortNew);
    var t2 := " @@" + h.section;
    var t1 := " +" + (b + t2);
    assert line[4..] == a + t1;
    RangeParses(line, 4, h.oldNo, Olds(h.body), h.shortOld, t1);
    var e := 4 + |a|;
    assert line[e..] == t1;
    assert line[e + 2..] == t1[2..] == b + t2;
    RangeParses(line, e + 2, h.newNo, News(h.body), h.shortNew, t2);
    var f := e + 2 + |b|;
    assert line[f..] == t2;
    Starts(line, 0, "@@ -", a + t1);
    Starts(line, e, " +", b + t2);
    Starts(line, f, " @@", h.section);
  }

  lemma Starts(s: string, j: nat, p: string, tail: string)
    requires j <= |s| && s[j..] == p + tail
    ensures OccursAt(s, j, p)
  {
    assert s[j..j + |p|] == s[j..][..|p|];
  }

  lemma HunkStep(s: State, h: Hunk)
    requires GoodHunk(h) && !InHunk(s)
    ensures Step(s, HunkHeaderLine(h)) == (State(s.file, Olds(h.body), News(h.body), h.oldNo, h.newNo),
                                           [ContentRules(HunkHeader(s.file, h.newNo), HunkHeaderLine(h))])
  {
    HunkHeaderParses(h);
    hide ParseHunk, LastIndex, HeadPath, Trim, HunkHeaderLine;
    var e := [ContentRules(HunkHeader(s.file, h.newNo), HunkHeaderLine(h))];
    assert PathEvents([]) + e == e;
  }

  lemma {:induction false} ScanHunks(s: State, hunks: seq<Hunk>) returns (r: State)
    requires !InHunk(s) && forall k :: 0 <= k < |hunks| ==> GoodHunk(hunks[k])
    ensures Run(s, PrintHunks(hunks)) == (r, HunkEvents(s.file, hunks)) && r.file == s.file && !InHunk(r)
    decreases |hunks|
  {
    hide Step, Run, BodyEvents, PrintBody, HunkHeaderLine, GoodHunk, Olds, News;
    r := s;
    RunNothing(s);
    if hunks != [] {
      var h, rest := hunks[0], PrintHunks(hunks[1..]);
      HunkStep(s, h);
      var s1 := State(s.file, Olds(h.body), News(h.body), h.oldNo, h.newNo);
      ScanBody(s.file, h.oldNo, h.newNo, h.body);
      r := ScanHunks(State(s.file, 0, 0, h.oldNo + Olds(h.body), h.newNo + News(h.body)), hunks[1..]);
      RunCat(s1, PrintBody(h.body), rest);
      RunHead(s, HunkHeaderLine(h), PrintBody(h.body) + rest);
      Regroup([HunkHeaderLine(h)], PrintBody(h.body), rest);
      Regroup([ContentRules(HunkHeader(s.file, h.newNo), HunkHeaderLine(h))],
              BodyEvents(s.file, h.oldNo, h.newNo, h.body), HunkEvents(s.file, hunks[1..]));
    }
  }

  lemma RunNothing(s: State)
    ensures Run(s, []) == (s, [])
  {}

  lemma RunHead(s: State, line: string, rest: seq<string>)
    ensures var (s1, es) := Step(s, line);
            var (s2, fs) := Run(s1, rest);
            Run(s, [line] + rest) == (s2, es + fs)
  {
    hide Step;
    assert ([line] + rest)[1..] == rest;
  }

  // ---- file headers ----

  lemma {:induction false} LastIndexFrom(s: string, p: string, j: nat, k: nat)
    requires k <= j && OccursAt(s, k, p)
    ensures LastIndex(s, p, j).Some? && k <= LastIndex(s, p, j).value <= j
    ensures forall i :: LastIndex(s, p, j).value < i <= j ==> !OccursAt(s, i, p)
  {
    if !OccursAt(s, j, p) { LastIndexFrom(s, p, j - 1, k); }
  }

  /** The git header has a separator, and `GitFile` is what stands behind the last one. */
  lemma GitCut(f: FileDiff) returns (cut: nat)
    ensures var rest := "a/" + f.oldPath + (" b/" + f.newPath);
            LastIndex(rest, " b/", |rest|) == Some(cut) && cut >= 2 + |f.oldPath| && cut + 3 <= |rest|
            && GitFile(f) == rest[cut + 3..]
            && (cut == 2 + |f.oldPath| <==> GitFile(f) == f.newPath)
  {
    var a := "a/" + f.oldPath;
    var rest := a + (" b/" + f.newPath);
    assert rest[|a|..|a| + 3] == " b/";
    assert OccursAt(rest, |a|, " b/");
    LastIndexFrom(rest, " b/", |rest|, |a|);
    cut := LastIndex(rest, " b/", |rest|).value;
    assert rest[|a| + 3..] == f.newPath;
  }

  lemma GitStep(s: State, f: FileDiff)
    requires !InHunk(s)
    ensures Step(s, GitLine(f)) == (s.(file := GitFile(f), oldLeft := 0, newLeft := 0), GitEvents(f))
  {
    var cut := GitCut(f);
    var rest := "a/" + f.oldPath + (" b/" + f.newPath);
    GitLineFacts(f);
    hide ParseHunk, LastIndex, HeadPath, Trim, GitFile, GitLine, StartsWith;
    var c := ContentRules(DiffHeader(GitFile(f)), GitLine(f));
    TwoPaths(rest[..cut], rest[cut + 1..], c);
  }

  lemma TwoPaths(a: string, b: string, c: Event)
    ensures PathEvents([a, b]) + [c] == [PathRules(a), PathRules(b), c]
    ensures PathEvents([a]) + [c] == [PathRules(a), c]
    ensures PathEvents([]) + [c] == [c]
  {
    assert [a, b][1..] == [b] && [b][1..] == [] && [a][1..] == [];
    assert PathEvents([a]) == [PathRules(a)] && PathEvents([b]) == [PathRules(b)];
    assert PathEvents([a, b]) == [PathRules(a), PathRules(b)];
  }

  lemma GitLineFacts(f: FileDiff)
    ensures ParseHunk(GitLine(f)) == None && StartsWith(GitLine(f), GIT)
    ensures GitLine(f)[|GIT|..] == "a/" + f.oldPath + (" b/" + f.newPath)
  {
    assert GitLine(f)[0] == 'd';
    assert GIT == "diff --git " && GitLine(f) == GIT + ("a/" + f.oldPath + (" b/" + f.newPath));
  }

  lemma QuietStep(s: State, line: string)
    requires !InHunk(s) && QuietLine(line)
    ensures Step(s, line) == (s.(oldLeft := 0, newLeft := 0),
                              (if HeadPath(line, 0).Some? then [PathRules(HeadPath(line, 0).value)] else [])
                              + [ContentRules(DiffHeader(s.file), line)])
  {
    hide ParseHunk, LastIndex, HeadPath, Trim, StartsWith;
    var c := ContentRules(DiffHeader(s.file), line);
    if HeadPath(line, 0).Some? {
      TwoPaths(HeadPath(line, 0).value, "", c);
      assert [PathRules(HeadPath(line, 0).value)] + [c] == [PathRules(HeadPath(line, 0).value), c];
    }
  }

  lemma {:induction false} ScanExtra(s: State, extra: seq<string>)
    requires !InHunk(s) && forall k :: 0 <= k < |extra| ==> QuietLine(extra[k])
    ensures Run(s, extra).0.file == s.file && !InHunk(Run(s, extra).0)
    ensures Run(s, extra).1 == ExtraEvents(s.file, extra)
    decreases |extra|
  {
    if extra != [] {
      QuietStep(s, extra[0]);
      hide Step, QuietLine, HeadPath;
      ScanExtra(s.(oldLeft := 0, newLeft := 0), extra[1..]);
    }
  }

  lemma MinusLine(path: string)
    requires DotAll(path)
    ensures QuietLine("--- " + path) && HeadPath("--- " + path, 0) == Some(path)
  {
    var line := "--- " + path;
    assert line[0] == '-' && line[..4] == "--- " && line[4..] == path;
    assert HEADS[0] == "--- ";
  }

  lemma PlusLine(path: string)
    requires DotAll(path)
    ensures var line := "+++ " + path;
            ParseHunk(line) == None && !StartsWith(line, GIT) && StartsWith(line, "+++ ")
            && HeadPath(line, 0) == Some(path) && line[4..] == path
  {
    var line := "+++ " + path;
    assert line[0] == '+' && line[..4] == "+++ " && line[4..] == path;
    assert HEADS[0] == "--- " && HEADS[1] == "+++ ";
    assert HeadPath(line, 0) == HeadPath(line, 1);
  }

  lemma PlusStep(s: State, path: string, file: string)
    requires !InHunk(s) && DotAll(path)
    requires var p := Trim(JsSpace, path); file == if p != DEV_NULL then PlusFile(p) else s.file
    ensures Step(s, "+++ " + path) == (s.(file := file, oldLeft := 0, newLeft := 0),
                                       [PathRules(path), ContentRules(DiffHeader(file), "+++ " + path)])
  {
    PlusLine(path);
    hide ParseHunk, LastIndex, HeadPath, Trim, StartsWith, PlusFile;
    TwoPaths(path, "", ContentRules(DiffHeader(file), "+++ " + path));
  }

  /** The path of a `+++` line, trimmed and without its prefix, is the new path. */
  lemma NamedPath(newPath: string, tab: bool)
    requires PlainPath(newPath)
    ensures var path := "b/" + newPath + if tab then "\t" else "";
            DotAll(path) && Trim(JsSpace, path) != DEV_NULL && PlusFile(Trim(JsSpace, path)) == newPath
  {
    var p := "b/" + newPath;
    var path := p + if tab then "\t" else "";
    assert p[|p| - 1] == newPath[|newPath| - 1] && p[0] == 'b';
    Trimmed(p, tab);
    assert DotAll(path) && p != DEV_NULL;
    hide Trim, DotAll, JsSpace;
    Prefixed(newPath);
  }

  lemma Trimmed(p: string, tab: bool)
    requires p != "" && !JsSpace(p[0]) && !JsSpace(p[|p| - 1])
    ensures Trim(JsSpace, p + if tab then "\t" else "") == p
  {
    var path := p + if tab then "\t" else "";
    assert TrimLeft(JsSpace, path) == path && TrimRight(JsSpace, p) == p;
    if tab { assert path[..|path| - 1] == p; }
  }

  lemma Prefixed(newPath: string)
    requires newPath != "" && newPath[|newPath| - 1] != '"'
    ensures PlusFile("b/" + newPath) == newPath
  {
    var p := "b/" + newPath;
    assert p[..2] == "b/" && p[2..] == newPath && p[0] == 'b';
  }

  lemma NullPath()
    ensures DotAll(DEV_NULL) && Trim(JsSpace, DEV_NULL) == DEV_NULL
  {
    assert DEV_NULL[0] == '/' && DEV_NULL[8] == 'l';
  }

  lemma ScanPlus(s: State, f: FileDiff) returns (r: State)
    requires !InHunk(s) && s.file == GitFile(f) && GoodFile(f)
    ensures Run(s, PlusLines(f)) == (r, PlusEvents(f)) && !InHunk(r) && r.file == HunkFile(f)
  {
    hide Step, Run, HeadPath, QuietLine, GitFile, Trim, PlusFile, DotAll;
    r := s;
    if f.plus.Unnamed? {
      RunNothing(s);
    } else {
      var minus, plus := PlusLines(f)[0], PlusLines(f)[1];
      var path := plus[4..];
      PlusPath(f);
      MinusLine(f.minus);
      QuietStep(s, minus);
      var s1 := s.(oldLeft := 0, newLeft := 0);
      PlusStep(s1, path, HunkFile(f));
      r := s1.(file := HunkFile(f));
      TwoLines(s, minus, plus);
      FourEvents(PathRules(f.minus), ContentRules(DiffHeader(s.file), minus), PathRules(path),
                 ContentRules(DiffHeader(HunkFile(f)), plus));
    }
  }

  lemma FourEvents(a: Event, b: Event, c: Event, d: Event)
    ensures [a] + [b] + [c, d] == [a, b, c, d]
  {}

  /** The path on the `+++` line names the file of the hunks. */
  lemma PlusPath(f: FileDiff)
    requires GoodFile(f) && !f.plus.Unnamed?
    ensures var path := PlusLines(f)[1][4..];
            var p := Trim(JsSpace, path);
            PlusLines(f)[1] == "+++ " + path && DotAll(path)
            && HunkFile(f) == if p != DEV_NULL then PlusFile(p) else GitFile(f)
  {
    hide GitFile, PlusFile, Trim, DotAll;
    var path := if f.plus.Null? then DEV_NULL else "b/" + f.newPath + if f.plus.tab then "\t" else "";
    if f.plus.Named? {
      NamedPath(f.newPath, f.plus.tab);
      assert PlusLines(f)[1] == "+++ " + ("b/" + f.newPath + if f.plus.tab then "\t" else "");
    } else {
      NullPath();
    }
    PlusText(path);
  }

  lemma PlusText(path: string)
    ensures ("+++ " + path)[4..] == path
  {}

  lemma TwoLines(s: State, a: string, b: string)
    ensures var (s1, es) := Step(s, a);
            var (s2, fs) := Step(s1, b);
            Run(s, [a, b]) == (s2, es + fs)
  {
    hide Step, Run;
    assert [a, b] == [a] + [b] && [b] == [b] + [];
    var (s1, es) := Step(s, a);
    RunHead(s, a, [b]);
    RunHead(s1, b, []);
    RunNothing(Step(s1, b).0);
    assert Step(s1, b).1 + [] == Step(s1, b).1;
  }

  lemma ScanFile(s: State, f: FileDiff) returns (r: State)
    requires !InHunk(s) && GoodFile(f)
    ensures Run(s, PrintFile(f)) == (r, FileEvents(f)) && !InHunk(r) && r.file == HunkFile(f)
  {
    hide Step, Run, GitFile, HunkFile, PlusLines, PrintHunks, ExtraEvents, PlusEvents, HunkEvents, GitEvents, GitLine;
    GitStep(s, f);
    var s1 := s.(file := GitFile(f), oldLeft := 0, newLeft := 0);
    ScanExtra(s1, f.extra);
    var s2 := Run(s1, f.extra).0;
    var s3 := ScanPlus(s2, f);
    r := ScanHunks(s3, f.hunks);
    var p, h := PlusLines(f), PrintHunks(f.hunks);
    RunCat(s2, p, h);
    RunCat(s1, f.extra, p + h);
    RunHead(s, GitLine(f), f.extra + (p + h));
    Regroup([GitLine(f)] + f.extra, p, h);
    Regroup([GitLine(f)], f.extra, p + h);
    var e, pe, he := ExtraEvents(GitFile(f), f.extra), PlusEvents(f), HunkEvents(HunkFile(f), f.hunks);
    Regroup(GitEvents(f) + e, pe, he);
    Regroup(GitEvents(f), e, pe + he);
  }

  lemma {:induction false} ScanFiles(s: State, d: seq<FileDiff>) returns (r: State)
    requires !InHunk(s) && forall k :: 0 <= k < |d| ==> GoodFile(d[k])
    ensures Run(s, PrintDiff(d)) == (r, DiffEvents(d)) && !InHunk(r)
    ensures r.file == if d == [] then s.file else HunkFile(d[|d| - 1])
    decreases |d|
  {
    hide Step, Run, PrintFile, FileEvents, GoodFile, HunkFile;
    r := s;
    RunNothing(s);
    if d != [] {
      var s1 := ScanFile(s, d[0]);
      r := ScanFiles(s1, d[1..]);
      RunCat(s, PrintFile(d[0]), PrintDiff(d[1..]));
    }
  }

  /** The last line of a text that ends with a line feed is empty, outside every hunk. */
  lemma EmptyStep(s: State)
    requires !InHunk(s)
    ensures Step(s, "").1 == [ContentRules(DiffHeader(s.file), "")]
  {
    EmptyHead(0);
    QuietStep(s, "");
  }

  lemma {:induction false} EmptyHead(k: nat)
    requires k <= |HEADS|
    ensures HeadPath("", k) == None
    decreases |HEADS| - k
  {
    if k < |HEADS| { EmptyHead(k + 1); }
  }

  /** On every printed diff each line gets its true file and number and each path rule a real header's path: the events
      are those of the printed files, hunk lines counted on their own side, and nothing else. */
  lemma {:induction false} ScanInvertsPrint(d: seq<FileDiff>)
    requires d != [] && forall k :: 0 <= k < |d| ==> GoodFile(d[k])
    requires forall k :: 0 <= k < |PrintDiff(d)| ==> FeedFree(PrintDiff(d)[k])
    ensures Scan(Join(PrintDiff(d) + [""]))
         == DiffEvents(d) + [ContentRules(DiffHeader(HunkFile(d[|d| - 1])), "")]
  {
    hide Step, GoodFile, PrintDiff, DiffEvents, HunkFile;
    SplitJoin(PrintDiff(d) + [""]);
    var r := ScanFiles(START, d);
    RunCat(START, PrintDiff(d), [""]);
    RunHead(r, "", []);
    RunNothing(Step(r, "").0);
    EmptyStep(r);
    assert [""] + [] == [""];
  }

  /** A deleted file, or one without a `+++` line, is named by the git header alone: it gets its own path exactly if no
      ` b/` stands in that path. */
  lemma {:induction false} GitFileIsPath(f: FileDiff)
    ensures GitFile(f) == f.newPath <==> forall k :: 0 <= k <= |f.newPath| ==> !OccursAt(f.newPath, k, " b/")
  {
    var cut := GitCut(f);
    var a := "a/" + f.oldPath;
    var rest := a + (" b/" + f.newPath);
    LastIndexFrom(rest, " b/", |rest|, cut);
    forall k | 0 <= k && k + 3 <= |f.newPath|
      ensures OccursAt(f.newPath, k, " b/") == OccursAt(rest, |a| + 3 + k, " b/")
    {
      assert f.newPath[k..k + 3] == rest[|a| + 3 + k..|a| + 6 + k];
    }
    if cut > |a| {
      NoOverlap(rest, |a|, cut);
      assert OccursAt(f.newPath, cut - |a| - 3, " b/");
    }
  }

  /** So on a printed diff the hunks get the new path exactly if a `+++` line names it or no ` b/` stands in it. */
  lemma {:induction false} HunkFileIsNewPath(f: FileDiff)
    ensures HunkFile(f) == f.newPath
       <==> f.plus.Named? || forall k :: 0 <= k <= |f.newPath| ==> !OccursAt(f.newPath, k, " b/")
  {
    hide GitFile;
    GitFileIsPath(f);
  }

  /** A deletion whose hunk is given another file: the name is cut at the last ` b/` of its own path. */
  lemma {:induction false} DeletionMisnamed()
    ensures var f := FileDiff("a b/x", "a b/x", ["deleted file mode 100644"], "a/a b/x", Null,
                              [Hunk(1, 0, [Del("y")], "", true, false)]);
            GoodFile(f) && HunkFile(f) == "x"
  {
    var f := FileDiff("a b/x", "a b/x", ["deleted file mode 100644"], "a/a b/x", Null,
                      [Hunk(1, 0, [Del("y")], "", true, false)]);
    var line := f.extra[0];
    assert line[0] == 'd' && line[1] == 'e' && GIT[1] == 'i' && f.hunks[0].body[1..] == [];
    OtherStart(line, "@@ -");
    OtherStart(line, "+++ ");
    hide LastIndex;
    LastCut();
  }

  lemma LastCut()
    ensures var rest := "a/" + "a b/x" + (" b/" + "a b/x");
            LastIndex(rest, " b/", |rest|) == Some(11) && rest[14..] == "x"
  {
    var rest := "a/" + "a b/x" + (" b/" + "a b/x");
    assert |rest| == 15 && rest[11..14] == " b/" && rest[14..] == "x";
    LastIndexFrom(rest, " b/", |rest|, 11);
    var cut := LastIndex(rest, " b/", |rest|).value;
    hide LastIndex;
    if cut > 11 { CharOf(rest, cut, " b/", 0); }
  }

  lemma OneHead(line: string, i: nat, k: nat)
    requires i < |HEADS| && k < |HEADS| && StartsWith(line, HEADS[i]) && StartsWith(line, HEADS[k])
    ensures i == k
  {
    assert HEADS[0][0] == '-' && HEADS[1][0] == '+';
    assert HEADS[2][0] == HEADS[3][0] == 'r' && HEADS[2][7] == 'f' && HEADS[3][7] == 't';
    assert HEADS[4][0] == HEADS[5][0] == 'c' && HEADS[4][5] == 'f' && HEADS[5][5] == 't';
    forall n | 0 <= n < |HEADS[i]| ensures line[n] == HEADS[i][n] { assert line[..|HEADS[i]|][n] == HEADS[i][n]; }
    forall n | 0 <= n < |HEADS[k]| ensures line[n] == HEADS[k][n] { assert line[..|HEADS[k]|][n] == HEADS[k][n]; }
  }

  lemma {:induction false} HeadPathFrom(line: string, k: nat, i: nat, path: string)
    requires k <= i < |HEADS| && line == HEADS[i] + path
    ensures HeadPath(line, k) == if DotAll(path) then Some(path) else None
    decreases i - k
  {
    assert line[..|HEADS[i]|] == HEADS[i] && line[|HEADS[i]|..] == path;
    if k < i {
      if StartsWith(line, HEADS[k]) { OneHead(line, i, k); }
      HeadPathFrom(line, k + 1, i, path);
    }
  }

  lemma {:induction false} HeadPathGives(line: string, k: nat) returns (i: nat)
    requires k <= |HEADS| && HeadPath(line, k).Some?
    ensures i < |HEADS| && line == HEADS[i] + HeadPath(line, k).value && DotAll(HeadPath(line, k).value)
    decreases |HEADS| - k
  {
    if StartsWith(line, HEADS[k]) {
      i := k;
      assert line == line[..|HEADS[k]|] + line[|HEADS[k]|..];
    } else {
      i := HeadPathGives(line, k + 1);
    }
  }

  predicate HeadLine(line: string, i: nat, path: string) {
    i < |HEADS| && line == HEADS[i] + path && DotAll(path)
  }

  /** The path of a header line is what stands behind one of the six prefixes, and no other line has one. */
  lemma {:induction false} HeadPathExactly(line: string, path: string)
    ensures HeadPath(line, 0) == Some(path) <==> exists i: nat :: HeadLine(line, i, path)
  {
    if HeadPath(line, 0) == Some(path) {
      var i := HeadPathGives(line, 0);
      assert HeadLine(line, i, path);
    }
    if i: nat :| HeadLine(line, i, path) { HeadPathFrom(line, 0, i, path); }
  }

  /** What the lines between the git header and the first hunk yield: for a path behind one of the prefixes the path
      rules on it, for any other line nothing but the content rules. */
  lemma {:induction false} ExtraLine(file: string, line: string, path: string)
    ensures (exists i: nat :: HeadLine(line, i, path)) ==>
              ExtraEvents(file, [line]) == [PathRules(path), ContentRules(DiffHeader(file), line)]
    ensures (forall i: nat, p :: !HeadLine(line, i, p)) ==>
              ExtraEvents(file, [line]) == [ContentRules(DiffHeader(file), line)]
  {
    HeadPathExactly(line, path);
    if HeadPath(line, 0).Some? { HeadPathExactly(line, HeadPath(line, 0).value); }
    hide HeadPath, HeadLine;
    assert [line][1..] == [] && ExtraEvents(file, []) == [];
  }

  /** The git header's path rules run on the two paths of the file exactly if its cut gives the new path. */
  lemma {:induction false} GitPathsExactly(f: FileDiff)
    ensures GitEvents(f) == [PathRules("a/" + f.oldPath), PathRules("b/" + f.newPath),
                             ContentRules(DiffHeader(f.newPath), GitLine(f))]
       <==> GitFile(f) == f.newPath
  {
    var cut := GitCut(f);
    var a := "a/" + f.oldPath;
    var rest := a + (" b/" + f.newPath);
    LastIndexFrom(rest, " b/", |rest|, cut);
    if GitFile(f) == f.newPath {
      assert |rest| - cut - 3 == |f.newPath| && cut == |a|;
      assert rest[..cut] == a && rest[cut + 1..] == "b/" + f.newPath;
    }
  }

  lemma NoOverlap(s: string, i: nat, j: nat)
    requires OccursAt(s, i, " b/") && OccursAt(s, j, " b/") && i < j
    ensures i + 3 <= j
  {
    assert s[i..i + 3][1] == 'b' && s[i..i + 3][2] == '/' && s[j..j + 3][0] == ' ';
  }

  // ---- names outside the printed diffs ----

  lemma QuotedName(x: string)
    requires x != "" && x[|x| - 1] != '"'
    ensures PlusFile("\"b/" + (x + "\"")) == x
    ensures !("b/" <= x) && !("\"b/" <= x) ==> PlusFile(x) == x
  {
    var p := "\"b/" + (x + "\"");
    assert p[..3] == "\"b/" && p[3..] == x + "\"";
    assert (x + "\"")[|x|] == '"' && (x + "\"")[..|x|] == x;
  }

  lemma PlusSets(s: State, path: string)
    requires !InHunk(s) && DotAll(path) && path != "" && !JsSpace(path[0]) && !JsSpace(path[|path| - 1])
    ensures Step(s, "+++ " + path).0.file == if path == "/dev/null" then s.file else PlusFile(path)
  {
    Trimmed(path, false);
    assert path + "" == path;
    PlusStep(s, path, if path != DEV_NULL then PlusFile(path) else s.file);
    hide Step, Trim, PlusFile, DotAll, JsSpace;
  }

  /** Outside a hunk a `+++` line names the file: behind `b/`, with or without git's quotes, or as it stands; only
      `/dev/null` names none. */
  lemma {:induction false} PlusNames(s: State, x: string)
    requires !InHunk(s) && x != "" && DotAll(x) && !JsSpace(x[0]) && !JsSpace(x[|x| - 1]) && x[|x| - 1] != '"'
    ensures Step(s, "+++ " + ("b/" + x)).0.file == x
    ensures Step(s, "+++ " + ("\"b/" + (x + "\""))).0.file == x
    ensures !("b/" <= x) && !("\"b/" <= x) ==> Step(s, "+++ " + x).0.file == if x == "/dev/null" then s.file else x
  {
    var bare, quoted := "b/" + x, "\"b/" + (x + "\"");
    QuotedName(x);
    Prefixed(x);
    assert bare[0] == 'b' && bare[|bare| - 1] == x[|x| - 1] && DotAll(bare);
    assert quoted[0] == '"' && quoted[|quoted| - 1] == '"' && DotAll(quoted);
    assert bare != "/dev/null" && quoted != "/dev/null" by { assert "/dev/null"[0] == '/'; }
    hide Step, PlusFile, DotAll;
    PlusSets(s, bare);
    PlusSets(s, quoted);
    PlusSets(s, x);
  }

  /** Before any header the lines belong to no file yet. */
  lemma {:induction false} BeforeAnyHeader(line: string)
    requires QuietLine(line)
    ensures Step(START, line) == (START, (if HeadPath(line, 0).Some? then [PathRules(HeadPath(line, 0).value)] else [])
                                         + [ContentRules(DiffHeader("(diff header)"), line)])
  {
    QuietStep(START, line);
  }
}
