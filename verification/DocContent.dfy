/** The index arithmetic of `set-content` in scripts/gdocs.py: a source file becomes paragraphs of four kinds, which are
    inserted as one text; headings and runs of bullets are then styled by their index ranges in it. */
module DocContent {
  import opened Lines
  import opened Strings

  datatype Kind = H1 | H2 | Bullet | Normal

  datatype Paragraph = Paragraph(kind: Kind, text: string)

  datatype Range = Range(start: nat, end: nat)

  function Classify(s: string): Paragraph {
    if "## " <= s then Paragraph(H2, s[3..])
    else if "# " <= s then Paragraph(H1, s[2..])
    else if "- " <= TrimLeft(PySpace, s) then Paragraph(Bullet, TrimLeft(PySpace, s)[2..])
    else Paragraph(Normal, s)
  }

  function Paragraphs(lines: seq<string>): seq<Paragraph> {
    if lines == [] then []
    else
      var s := TrimRight(PySpace, lines[|lines| - 1]);
      Paragraphs(lines[..|lines| - 1]) + if Trim(PySpace, s) == "" then [] else [Classify(s)]
  }

  /** The inserted text. */
  function Text(ps: seq<Paragraph>): string {
    if ps == [] then "" else if |ps| == 1 then ps[0].text else Text(ps[..|ps| - 1]) + ("\n" + ps[|ps| - 1].text)
  }

  /** The index of paragraph `k`; the body of a document starts at 1, and each paragraph ends with a line feed. */
  function Start(ps: seq<Paragraph>, k: nat): nat
    requires k <= |ps|
  {
    if k == 0 then 1 else Start(ps, k - 1) + |ps[k - 1].text| + 1
  }

  function RangeOf(ps: seq<Paragraph>, k: nat): Range
    requires k < |ps|
  {
    Range(Start(ps, k), Start(ps, k) + |ps[k].text|)
  }

  function Headings(ps: seq<Paragraph>, k: nat): seq<(Range, Kind)>
    requires k <= |ps|
  {
    if k == 0 then []
    else
      Headings(ps, k - 1)
      + if ps[k - 1].kind == H1 || ps[k - 1].kind == H2 then [(RangeOf(ps, k - 1), ps[k - 1].kind)] else []
  }

  /** The runs of bullets among the first `k` paragraphs, each by its first and last index. */
  function Runs(ps: seq<Paragraph>, k: nat): (r: seq<(nat, nat)>)
    requires k <= |ps|
    ensures forall a :: 0 <= a < |r| ==> r[a].0 <= r[a].1 < k
    ensures k > 0 && ps[k - 1].kind == Bullet ==> r != [] && r[|r| - 1].1 == k - 1
  {
    if k == 0 then []
    else
      var before := Runs(ps, k - 1);
      if ps[k - 1].kind != Bullet then before
      else if k > 1 && ps[k - 2].kind == Bullet then
        before[|before| - 1 := (before[|before| - 1].0, k - 1)]
      else before + [(k - 1, k - 1)]
  }

  function RunRange(ps: seq<Paragraph>, i: nat, j: nat): Range
    requires i <= j < |ps|
  {
    Range(Start(ps, i), Start(ps, j) + |ps[j].text|)
  }

  /** Their index ranges. */
  function Spans(ps: seq<Paragraph>, k: nat): seq<Range>
    requires k <= |ps|
  {
    var runs := Runs(ps, k);
    seq(|runs|, a requires 0 <= a < |runs| => RunRange(ps, runs[a].0, runs[a].1))
  }

  // ---- the three loops ----

  method ReadParagraphs(raw: string) returns (ps: seq<Paragraph>)
    ensures ps == Paragraphs(Split(raw))
  {
    hide Classify, Trim, TrimRight;
    var lines := Split(raw);
    ps := [];
    for k := 0 to |lines|
      invariant ps == Paragraphs(lines[..k])
    {
      assert lines[..k + 1][..k] == lines[..k];
      var s := TrimRight(PySpace, lines[k]);
      if Trim(PySpace, s) == "" { continue; }
      ps := ps + [Classify(s)];
    }
    assert lines[..|lines|] == lines;
  }

  /** The ranges of the headings and of the single bullets. */
  method StyleRanges(ps: seq<Paragraph>) returns (headings: seq<(Range, Kind)>, bullets: seq<Range>, ghost at: seq<nat>)
    ensures headings == Headings(ps, |ps|) && IsBullets(ps, at, |ps|)
    ensures bullets == RangesAt(ps, at)
  {
    hide IsBullets, RangesAt, RangeOf;
    headings, bullets, at := [], [], [];
    NoBullets(ps);
    var idx := 1;
    for k := 0 to |ps|
      invariant idx == Start(ps, k) && headings == Headings(ps, k)
      invariant IsBullets(ps, at, k) && bullets == RangesAt(ps, at)
    {
      var start, end := idx, idx + |ps[k].text|;
      RangeIs(ps, k);
      OneMoreParagraph(ps, at, k);
      if ps[k].kind == H1 || ps[k].kind == H2 {
        headings := headings + [(Range(start, end), ps[k].kind)];
      } else if ps[k].kind == Bullet {
        bullets := bullets + [Range(start, end)];
        at := at + [k];
      }
      idx := end + 1;
    }
  }

  /** The spans of the bullets. */
  method MergeBullets(bullets: seq<Range>, ghost ps: seq<Paragraph>, ghost at: seq<nat>) returns (spans: seq<Range>)
    requires IsBullets(ps, at, |ps|) && bullets == RangesAt(ps, at)
    ensures spans == Spans(ps, |ps|)
  {
    hide IsBullets, Spans, Start;
    spans := [];
    BulletsFrom(ps, at);
    for j := 0 to |bullets|
      invariant spans == Spans(ps, Upto(ps, at, j))
      invariant if j == 0 then spans == [] else spans != [] && spans[|spans| - 1].end == bullets[j - 1].end
    {
      var b := bullets[j];
      NextBullet(ps, at, j, spans);
      if spans != [] && b.start == spans[|spans| - 1].end + 1 {
        spans := spans[..|spans| - 1] + [Range(spans[|spans| - 1].start, b.end)];
      } else {
        spans := spans + [b];
      }
      NoneBetween(ps, at, j);
      SpansStay(ps, at[j] + 1, Upto(ps, at, j + 1));
    }
  }

  ghost predicate Within(ps: seq<Paragraph>, at: seq<nat>) { forall j :: 0 <= j < |at| ==> at[j] < |ps| }

  ghost function RangesAt(ps: seq<Paragraph>, at: seq<nat>): seq<Range>
    requires Within(ps, at)
  {
    seq(|at|, j requires 0 <= j < |at| => RangeOf(ps, at[j]))
  }

  /** The indices of the bullets among the first `k` paragraphs. */
  ghost predicate IsBullets(ps: seq<Paragraph>, at: seq<nat>, k: nat)
    requires k <= |ps|
    ensures IsBullets(ps, at, k) ==> Within(ps, at)
  {
    && (forall j :: 0 <= j < |at| ==> at[j] < k && ps[at[j]].kind == Bullet)
    && (forall i, j :: 0 <= i < j < |at| ==> at[i] < at[j])
    && (forall i :: 0 <= i < k && ps[i].kind == Bullet ==> i in at)
  }

  lemma NoBullets(ps: seq<Paragraph>)
    ensures IsBullets(ps, [], 0) && RangesAt(ps, []) == []
  {}

  lemma RangeIs(ps: seq<Paragraph>, k: nat)
    requires k < |ps|
    ensures RangeOf(ps, k) == Range(Start(ps, k), Start(ps, k) + |ps[k].text|)
  {}

  lemma OneMoreParagraph(ps: seq<Paragraph>, at: seq<nat>, k: nat)
    requires k < |ps| && IsBullets(ps, at, k)
    ensures if ps[k].kind != Bullet then IsBullets(ps, at, k + 1)
            else IsBullets(ps, at + [k], k + 1) && RangesAt(ps, at + [k]) == RangesAt(ps, at) + [RangeOf(ps, k)]
  {
    hide RangeOf, RangesAt;
    if ps[k].kind == Bullet {
      var more := at + [k];
      assert more[|at|] == k && forall j :: 0 <= j < |at| ==> more[j] == at[j];
      assert IsBullets(ps, more, k + 1);
      OneMoreRange(ps, at, k);
    }
  }

  lemma OneMoreRange(ps: seq<Paragraph>, at: seq<nat>, k: nat)
    requires k < |ps| && Within(ps, at) && Within(ps, at + [k])
    ensures RangesAt(ps, at + [k]) == RangesAt(ps, at) + [RangeOf(ps, k)]
  {
    hide RangeOf;
  }

  /** Where the j-th bullet is, or the end. */
  ghost function Upto(ps: seq<Paragraph>, at: seq<nat>, j: nat): nat
    requires j <= |at|
  {
    if j < |at| then at[j] else |ps|
  }

  lemma BulletsFrom(ps: seq<Paragraph>, at: seq<nat>)
    requires IsBullets(ps, at, |ps|)
    ensures Upto(ps, at, 0) <= |ps| && Spans(ps, Upto(ps, at, 0)) == []
  {
    var first := Upto(ps, at, 0);
    forall m | 0 <= m < |ps| && ps[m].kind == Bullet ensures m >= first {
      var i :| 0 <= i < |at| && at[i] == m;
    }
    SpansStay(ps, 0, first);
  }

  lemma NoneBetween(ps: seq<Paragraph>, at: seq<nat>, j: nat)
    requires IsBullets(ps, at, |ps|) && j < |at|
    ensures at[j] < Upto(ps, at, j + 1) <= |ps| && forall m :: at[j] < m < Upto(ps, at, j + 1) ==> ps[m].kind != Bullet
  {
    forall m | at[j] < m < |ps| && ps[m].kind == Bullet ensures m >= Upto(ps, at, j + 1) {
      var i :| 0 <= i < |at| && at[i] == m;
      assert i > j;
    }
  }

  lemma {:induction false} SpansStay(ps: seq<Paragraph>, i: nat, k: nat)
    requires i <= k <= |ps| && forall m :: i <= m < k ==> ps[m].kind != Bullet
    ensures Spans(ps, k) == Spans(ps, i)
    decreases k
  {
    if i < k {
      SpansStay(ps, i, k - 1);
      assert Runs(ps, k) == Runs(ps, k - 1);
    }
  }

  lemma {:induction false} Later(ps: seq<Paragraph>, i: nat, k: nat)
    requires i < k <= |ps|
    ensures Start(ps, k) >= RangeOf(ps, i).end + 1
    ensures Start(ps, k) == RangeOf(ps, i).end + 1 <==> i + 1 == k
    decreases k
  {
    if i + 1 < k { Later(ps, i, k - 1); }
  }

  /** A bullet starts one past the end of the bullet before it exactly if no other paragraph lies between. */
  lemma NextBullet(ps: seq<Paragraph>, at: seq<nat>, j: nat, spans: seq<Range>)
    requires IsBullets(ps, at, |ps|) && j < |at| && spans == Spans(ps, at[j])
    requires j > 0 ==> spans != [] && spans[|spans| - 1].end == RangeOf(ps, at[j - 1]).end
    requires j == 0 ==> spans == []
    ensures var b := RangeOf(ps, at[j]);
            Spans(ps, at[j] + 1)
            == if spans != [] && b.start == spans[|spans| - 1].end + 1 then
                 spans[..|spans| - 1] + [Range(spans[|spans| - 1].start, b.end)]
               else spans + [b]
  {
    var k := at[j];
    Adjacent(ps, at, j);
    RunsStep(ps, k + 1);
    hide Start, IsBullets, Runs, Spans;
    if j > 0 { Later(ps, at[j - 1], k); }
    hide RangeOf;
    if k > 0 && ps[k - 1].kind == Bullet {
      LongerSpan(ps, k);
    } else {
      NewSpan(ps, k);
    }
  }

  lemma NewSpan(ps: seq<Paragraph>, k: nat)
    requires k < |ps| && Runs(ps, k + 1) == Runs(ps, k) + [(k, k)]
    ensures Spans(ps, k + 1) == Spans(ps, k) + [RangeOf(ps, k)]
  {
    hide Runs, Start;
  }

  lemma LongerSpan(ps: seq<Paragraph>, k: nat)
    requires k < |ps| && Runs(ps, k) != []
    requires var runs := Runs(ps, k); Runs(ps, k + 1) == runs[|runs| - 1 := (runs[|runs| - 1].0, k)]
    ensures var spans := Spans(ps, k);
            spans != []
            && Spans(ps, k + 1) == spans[..|spans| - 1] + [Range(spans[|spans| - 1].start, RangeOf(ps, k).end)]
  {
    hide Runs, Start;
  }

  lemma Adjacent(ps: seq<Paragraph>, at: seq<nat>, j: nat)
    requires IsBullets(ps, at, |ps|) && j < |at|
    ensures at[j] > 0 && ps[at[j] - 1].kind == Bullet <==> j > 0 && at[j - 1] + 1 == at[j]
  {
    var k := at[j];
    if k > 0 && ps[k - 1].kind == Bullet {
      var i :| 0 <= i < |at| && at[i] == k - 1;
      assert i < j;
      assert at[i] < at[i + 1] <= at[j];
    }
  }

  // ---- the ranges ----

  lemma {:induction false} TextLength(ps: seq<Paragraph>, k: nat)
    requires 0 < k <= |ps|
    ensures |Text(ps[..k])| + 2 == Start(ps, k)
  {
    if k == 1 {
      assert Start(ps, 0) == 1;
    } else {
      TextLength(ps, k - 1);
      assert ps[..k][..k - 1] == ps[..k - 1];
    }
  }

  lemma {:induction false} TextPrefix(ps: seq<Paragraph>, k: nat)
    requires 0 < k <= |ps|
    ensures Text(ps[..k]) <= Text(ps)
    decreases |ps| - k
  {
    if k == |ps| {
      assert ps[..k] == ps;
    } else {
      TextPrefix(ps, k + 1);
      assert ps[..k + 1][..k] == ps[..k];
    }
  }

  /** Each range cuts exactly its own paragraph out of the inserted text; the text's first character has index 1. */
  lemma {:induction false} RangeCutsParagraph(ps: seq<Paragraph>, k: nat)
    requires k < |ps|
    ensures var r := RangeOf(ps, k);
            1 <= r.start <= r.end <= |Text(ps)| + 1 && Text(ps)[r.start - 1..r.end - 1] == ps[k].text
  {
    var t, n := Text(ps[..k + 1]), |ps[k].text|;
    TextPrefix(ps, k + 1);
    TextLength(ps, k + 1);
    assert t[|t| - n..] == ps[k].text by {
      if k > 0 { assert ps[..k + 1][..k] == ps[..k]; }
    }
    assert Text(ps)[|t| - n..|t|] == t[|t| - n..];
  }

  // ---- the spans ----

  predicate AllBullets(ps: seq<Paragraph>, i: nat, j: nat)
    requires j < |ps|
  {
    forall m :: i <= m <= j ==> ps[m].kind == Bullet
  }

  /** An unbroken run of bullets among the first `k` paragraphs that no bullet among them extends. */
  predicate MaximalRun(ps: seq<Paragraph>, k: nat, i: nat, j: nat)
    requires k <= |ps|
  {
    && i <= j < k && AllBullets(ps, i, j)
    && (i == 0 || ps[i - 1].kind != Bullet) && (j + 1 == k || ps[j + 1].kind != Bullet)
  }

  predicate Apart(runs: seq<(nat, nat)>) { forall a, b :: 0 <= a < b < |runs| ==> runs[a].1 + 1 < runs[b].0 }

  predicate Maximal(ps: seq<Paragraph>, k: nat, runs: seq<(nat, nat)>)
    requires k <= |ps|
  {
    forall a :: 0 <= a < |runs| ==> MaximalRun(ps, k, runs[a].0, runs[a].1)
  }

  predicate Covers(runs: seq<(nat, nat)>, a: int, m: nat) { 0 <= a < |runs| && runs[a].0 <= m <= runs[a].1 }

  ghost predicate Covered(runs: seq<(nat, nat)>, m: nat) { exists a :: Covers(runs, a, m) }

  ghost predicate AllCovered(ps: seq<Paragraph>, k: nat, runs: seq<(nat, nat)>)
    requires k <= |ps|
  {
    forall m: nat :: m < k && ps[m].kind == Bullet ==> Covered(runs, m)
  }

  lemma SkipOne(ps: seq<Paragraph>, k: nat, runs: seq<(nat, nat)>)
    requires k < |ps| && ps[k].kind != Bullet && Maximal(ps, k, runs) && AllCovered(ps, k, runs)
    ensures Maximal(ps, k + 1, runs) && AllCovered(ps, k + 1, runs)
  {
    hide AllBullets, Covered;
    forall a | 0 <= a < |runs| ensures MaximalRun(ps, k + 1, runs[a].0, runs[a].1) {
      assert MaximalRun(ps, k, runs[a].0, runs[a].1);
    }
  }

  lemma OpenRun(ps: seq<Paragraph>, k: nat, runs: seq<(nat, nat)>)
    requires k < |ps| && ps[k].kind == Bullet && (k == 0 || ps[k - 1].kind != Bullet)
    requires Maximal(ps, k, runs) && Apart(runs) && AllCovered(ps, k, runs)
    ensures var more := runs + [(k, k)]; Maximal(ps, k + 1, more) && Apart(more) && AllCovered(ps, k + 1, more)
  {
    var more := runs + [(k, k)];
    forall a | 0 <= a < |more|
      ensures MaximalRun(ps, k + 1, more[a].0, more[a].1) && (a < |runs| ==> more[a].1 + 1 < k)
    {
      if a < |runs| {
        assert MaximalRun(ps, k, runs[a].0, runs[a].1);
        LastOf(ps, runs[a].0, runs[a].1);
      }
    }
    StillCovered(ps, k, runs, more);
    assert Covers(more, |runs|, k);
  }

  lemma LastOf(ps: seq<Paragraph>, i: nat, j: nat)
    requires i <= j < |ps| && AllBullets(ps, i, j)
    ensures ps[j].kind == Bullet
  {}

  lemma LongerRun(ps: seq<Paragraph>, k: nat, runs: seq<(nat, nat)>)
    requires k < |ps| && ps[k].kind == Bullet && runs != [] && runs[|runs| - 1].1 + 1 == k
    requires Maximal(ps, k, runs) && Apart(runs) && AllCovered(ps, k, runs)
    ensures var more := runs[|runs| - 1 := (runs[|runs| - 1].0, k)];
            Maximal(ps, k + 1, more) && Apart(more) && AllCovered(ps, k + 1, more)
  {
    var n := |runs| - 1;
    var more := runs[n := (runs[n].0, k)];
    forall a | 0 <= a < |more| ensures MaximalRun(ps, k + 1, more[a].0, more[a].1) {
      assert MaximalRun(ps, k, runs[a].0, runs[a].1);
      if a < n { assert runs[a].1 + 1 < runs[n].0; }
    }
    StillCovered(ps, k, runs, more);
    assert Covers(more, n, k);
  }

  lemma StillCovered(ps: seq<Paragraph>, k: nat, runs: seq<(nat, nat)>, more: seq<(nat, nat)>)
    requires k <= |ps| && AllCovered(ps, k, runs) && |runs| <= |more|
    requires forall a :: 0 <= a < |runs| ==> more[a].0 == runs[a].0 && runs[a].1 <= more[a].1
    ensures AllCovered(ps, k, more)
  {
    forall m: nat | m < k && ps[m].kind == Bullet ensures Covered(more, m) {
      assert Covered(runs, m);
      var a :| Covers(runs, a, m);
      assert Covers(more, a, m);
    }
  }

  lemma {:induction false} RunsAre(ps: seq<Paragraph>, k: nat)
    requires k <= |ps|
    ensures Maximal(ps, k, Runs(ps, k)) && Apart(Runs(ps, k)) && AllCovered(ps, k, Runs(ps, k))
  {
    if k > 0 {
      RunsAre(ps, k - 1);
      RunsNext(ps, k);
    }
  }

  lemma RunsNext(ps: seq<Paragraph>, k: nat)
    requires 0 < k <= |ps|
    requires var runs := Runs(ps, k - 1); Maximal(ps, k - 1, runs) && Apart(runs) && AllCovered(ps, k - 1, runs)
    ensures var runs := Runs(ps, k); Maximal(ps, k, runs) && Apart(runs) && AllCovered(ps, k, runs)
  {
    hide *;
    RunsStep(ps, k);
    var before := Runs(ps, k - 1);
    if ps[k - 1].kind != Bullet {
      SkipOne(ps, k - 1, before);
    } else if k > 1 && ps[k - 2].kind == Bullet {
      LongerRun(ps, k - 1, before);
    } else {
      OpenRun(ps, k - 1, before);
    }
  }

  lemma RunsStep(ps: seq<Paragraph>, k: nat)
    requires 0 < k <= |ps|
    ensures var before := Runs(ps, k - 1);
            var n := |before| - 1;
            if ps[k - 1].kind != Bullet then Runs(ps, k) == before
            else if k > 1 && ps[k - 2].kind == Bullet then
              n >= 0 && before[n].1 + 1 == k - 1 && Runs(ps, k) == before[n := (before[n].0, k - 1)]
            else Runs(ps, k) == before + [(k - 1, k - 1)]
  {}

  predicate RunWithRange(ps: seq<Paragraph>, i: nat, j: nat, r: Range) {
    MaximalRun(ps, |ps|, i, j) && r == RunRange(ps, i, j)
  }

  /** The spans are exactly the maximal runs of consecutive bullets, in order, with something else between any two. */
  lemma {:induction false} SpansAreTheRuns(ps: seq<Paragraph>, r: Range)
    ensures r in Spans(ps, |ps|) <==> exists i: nat, j: nat :: RunWithRange(ps, i, j, r)
    ensures Apart(Runs(ps, |ps|))
  {
    var runs, spans := Runs(ps, |ps|), Spans(ps, |ps|);
    RunsAre(ps, |ps|);
    hide Runs, RunRange, MaximalRun, Apart;
    if r in spans {
      var a :| 0 <= a < |spans| && spans[a] == r;
      assert RunWithRange(ps, runs[a].0, runs[a].1, r);
    }
    if i: nat, j: nat :| RunWithRange(ps, i, j, r) {
      var a := SameRun(ps, i, j, runs);
      assert spans[a] == r;
    }
  }

  lemma SameRun(ps: seq<Paragraph>, i: nat, j: nat, runs: seq<(nat, nat)>) returns (a: nat)
    requires MaximalRun(ps, |ps|, i, j) && Maximal(ps, |ps|, runs) && AllCovered(ps, |ps|, runs)
    ensures a < |runs| && runs[a] == (i, j)
  {
    LastOf(ps, i, i);
    assert Covered(runs, i);
    a :| Covers(runs, a, i);
    var (x, y) := runs[a];
    assert MaximalRun(ps, |ps|, x, y);
    assert x == i && y == j;
  }

  // ---- what is kept ----

  lemma {:induction false} TrimmedEnd(s: string)
    ensures var t := TrimRight(PySpace, s); t <= s && (t != "" ==> !PySpace(t[|t| - 1]))
  {
    if s != "" && PySpace(s[|s| - 1]) { TrimmedEnd(s[..|s| - 1]); }
  }

  lemma {:induction false} TrimmedStart(s: string)
    ensures var t := TrimLeft(PySpace, s); |t| <= |s| && t == s[|s| - |t|..]
  {
    if s != "" && PySpace(s[0]) { TrimmedStart(s[1..]); }
  }

  /** What is left of a line behind a marker, when the line does not end in white space. */
  lemma BehindMarker(s: string, marker: string)
    requires marker <= s && marker != "" && marker[|marker| - 1] == ' ' && !PySpace(s[|s| - 1]) && FeedFree(s)
    ensures s[|marker|..] != "" && FeedFree(s[|marker|..])
  {
    assert |s| == |marker| ==> s == marker;
  }

  lemma ClassifyKeeps(line: string)
    requires FeedFree(line)
    requires Trim(PySpace, TrimRight(PySpace, line)) != ""
    ensures var p := Classify(TrimRight(PySpace, line)); p.text != "" && FeedFree(p.text)
  {
    TrimmedEnd(line);
    var s := TrimRight(PySpace, line);
    TrimmedStart(s);
    var t := TrimLeft(PySpace, s);
    assert s != "" && FeedFree(s);
    assert t != "" ==> t[|t| - 1] == s[|s| - 1] && FeedFree(t);
    hide FeedFree, TrimLeft, TrimRight, PySpace, Trim;
    if "## " <= s {
      BehindMarker(s, "## ");
    } else if "# " <= s {
      BehindMarker(s, "# ");
    } else if "- " <= t {
      BehindMarker(t, "- ");
    }
  }

  predicate Kept(p: Paragraph) { p.text != "" && FeedFree(p.text) }

  /** Every paragraph that is kept has a text, all on one line; so no range is empty and none holds a line feed. */
  lemma {:induction false} KeptParagraphs(lines: seq<string>)
    requires forall k :: 0 <= k < |lines| ==> FeedFree(lines[k])
    ensures forall k :: 0 <= k < |Paragraphs(lines)| ==> Kept(Paragraphs(lines)[k])
  {
    if lines != [] {
      var before, line := lines[..|lines| - 1], lines[|lines| - 1];
      KeptParagraphs(before);
      hide Classify, Trim, TrimRight, FeedFree;
      var s := TrimRight(PySpace, line);
      if Trim(PySpace, s) != "" {
        ClassifyKeeps(line);
        assert Kept(Classify(s)) && Paragraphs(lines) == Paragraphs(before) + [Classify(s)];
      } else {
        assert Paragraphs(before) + [] == Paragraphs(before);
      }
    }
  }

  // ---- the headings ----

  /** A heading paragraph, its range and its own style. */
  ghost predicate HeadingAt(ps: seq<Paragraph>, k: nat, h: (Range, Kind)) {
    && k < |ps| && (ps[k].kind == H1 || ps[k].kind == H2)
    && h == (Range(Start(ps, k), Start(ps, k) + |ps[k].text|), ps[k].kind)
  }

  predicate Ascending(hs: seq<(Range, Kind)>) { forall i, j :: 0 <= i < j < |hs| ==> hs[i].0.start < hs[j].0.start }

  /** Exactly the first and second headings are styled, in order, each over its own text and with its own style. */
  lemma {:induction false} HeadingsExactly(ps: seq<Paragraph>, n: nat)
    requires n <= |ps|
    ensures var hs := Headings(ps, n);
            && (forall h :: h in hs <==> exists k: nat :: k < n && HeadingAt(ps, k, h))
            && Ascending(hs)
            && (forall h :: h in hs ==> h.0.start < Start(ps, n))
  {
    if n > 0 {
      var k := n - 1;
      HeadingsExactly(ps, k);
      NextHeading(ps, k);
      hide Headings, HeadingAt, Start, RangeOf;
      assert forall h :: h in Headings(ps, n) <==> h in Headings(ps, k) || HeadingAt(ps, k, h);
    }
  }

  lemma NextHeading(ps: seq<Paragraph>, k: nat)
    requires k < |ps|
    ensures var h, heading := (RangeOf(ps, k), ps[k].kind), ps[k].kind == H1 || ps[k].kind == H2;
            && Headings(ps, k + 1) == Headings(ps, k) + (if heading then [h] else [])
            && (forall x :: HeadingAt(ps, k, x) <==> heading && x == h)
            && h.0.start == Start(ps, k) < Start(ps, k + 1)
  {}

  // ---- what a line becomes ----

  /** A dash, a space and this text, behind any white space. */
  ghost predicate BulletOf(s: string, x: string) { exists i :: Blank(PySpace, i) && s == i + ("- " + x) }

  /** The text of a line, without the white space it ends with, stands for this paragraph. */
  ghost predicate StandsFor(s: string, p: Paragraph) {
    match p.kind
    case H1 => s == "# " + p.text
    case H2 => s == "## " + p.text
    case Bullet => BulletOf(s, p.text)
    case Normal => s == p.text && !("# " <= s) && !("## " <= s) && forall x :: !BulletOf(s, x)
  }

  lemma BulletExactly(s: string, x: string)
    ensures BulletOf(s, x) <==> TrimLeft(PySpace, s) == "- " + x
  {
    var a := TrimLeftIs(PySpace, s);
    forall i | Blank(PySpace, i) && s == i + ("- " + x) ensures TrimLeft(PySpace, s) == "- " + x {
      TrimLeftOff(PySpace, i, "- " + x);
    }
    hide TrimLeft, PySpace, Blank;
  }

  lemma HeadExactly(s: string)
    ensures "## " <= s ==> TrimLeft(PySpace, s) == s && s == "## " + s[3..] && !("# " <= s)
    ensures "# " <= s ==> TrimLeft(PySpace, s) == s && s == "# " + s[2..]
    ensures "- " <= s ==> s == "- " + s[2..] && !("# " <= s) && !("## " <= s)
  {
    assert ("- " <= s ==> s[0] == '-') && ("# " <= s || "## " <= s ==> s[0] == '#');
    assert ("# " <= s ==> s[1] == ' ') && ("## " <= s ==> s[1] == '#');
  }

  /** A marker is there, with this text behind it, exactly if the text is what cutting it off leaves. */
  lemma MarkedExactly(s: string, mark: string, x: string)
    ensures s == mark + x <==> mark <= s && s[|mark|..] == x
  {}

  lemma {:induction false} ClassifyExactly(s: string, p: Paragraph)
    ensures Classify(s) == p <==> StandsFor(s, p)
  {
    var t := TrimLeft(PySpace, s);
    HeadExactly(s);
    HeadExactly(t);
    forall x ensures BulletOf(s, x) <==> "- " <= t && t[2..] == x {
      BulletExactly(s, x);
      MarkedExactly(t, "- ", x);
    }
    assert "- " <= t ==> BulletOf(s, t[2..]);
    MarkedExactly(s, "# ", p.text);
    MarkedExactly(s, "## ", p.text);
    hide TrimLeft, PySpace, BulletOf;
  }

  lemma TrimEnds(s: string)
    ensures TrimLeft(PySpace, s) == "" ==> Blank(PySpace, s)
    ensures TrimLeft(PySpace, s) != "" ==>
              s != "" && TrimLeft(PySpace, s)[|TrimLeft(PySpace, s)| - 1] == s[|s| - 1]
  {
    var a := TrimLeftIs(PySpace, s);
    hide TrimLeft, PySpace;
  }

  lemma LastOne(ps: seq<Paragraph>, a: Paragraph, b: Paragraph)
    ensures ps + [a] == ps + [b] <==> a == b
  {
    assert (ps + [a])[|ps|] == a && (ps + [b])[|ps|] == b;
  }

  lemma NotBlank(s: string)
    requires s != "" ==> !PySpace(s[|s| - 1])
    ensures Trim(PySpace, s) == "" <==> s == ""
  {
    TrimEnds(s);
    TrimRightOff(PySpace, TrimLeft(PySpace, s), "");
    assert TrimLeft(PySpace, s) + "" == TrimLeft(PySpace, s);
    hide TrimLeft, TrimRight, PySpace;
  }

  /** A line is left out if it is blank; any other one, without the white space it ends with, becomes the paragraph it
      stands for: `## ` a second heading, `# ` a first one, `- ` behind any white space a bullet, else itself. */
  lemma {:induction false} LineReads(before: seq<string>, s: string, end: string, p: Paragraph)
    requires Blank(PySpace, end) && (s != "" ==> !PySpace(s[|s| - 1]))
    ensures Paragraphs(before + [s + end])
         == Paragraphs(before) + if s == "" then [] else [Classify(s)]
    ensures s != "" ==> (Paragraphs(before + [s + end]) == Paragraphs(before) + [p] <==> StandsFor(s, p))
  {
    ClassifyExactly(s, p);
    TrimRightOff(PySpace, s, end);
    NotBlank(s);
    assert (before + [s + end])[..|before|] == before;
    LastOne(Paragraphs(before), Classify(s), p);
    hide Classify, StandsFor, Trim, TrimRight, PySpace, Blank;
  }
}
