/** The switchable patch of scripts/patch-telegram-plugin.py: `apply_topics` puts it on, `remove_topics` takes it off.

    Putting it on is a list of steps, each an anchor that must match exactly once and lines to insert before, after or
    in place of it. Every inserted line ends with a tag, every replaced line is kept behind a prefix. */
module TopicsPatch {
  import opened TextLines
  import opened Options
  import opened Sequences
  import opened Strings

  const TAG: string := "// MARVEEN-PATCH(tgtopics)"
  const ORIG: string := "// MARVEEN-PATCH(tgtopics-orig) "
  const TAG_END: string := " // MARVEEN-PATCH(tgtopics)"

  datatype Mode = InsertBefore | InsertAfter | Replace

  /** One line of an anchor: any indent, then a literal; then the line ends, or anything may follow up to its end, or
      (last line only) the anchor ends there. */
  datatype Line = Exact(lit: string) | Prefix(lit: string) | Open(lit: string)

  datatype Step = Step(name: string, mode: Mode, anchor: seq<Line>, lines: seq<string>)

  /** A match: from `from` to `to`, the indent of its first line reaching to `text`. */
  datatype Match = Match(from: nat, text: nat, to: nat)

  datatype Status = Patched | Already | AnchorMissing(name: string)

  // ---- anchors ----

  function SpacesEnd(t: string, j: nat): (e: nat)
    requires j <= |t|
    ensures j <= e <= |t| && forall k :: j <= k < e ==> t[k] == ' '
    decreases |t| - j
  {
    if j < |t| && t[j] == ' ' then SpacesEnd(t, j + 1) else j
  }

  function FeedEnd(t: string, j: nat): (e: nat)
    requires j <= |t|
    ensures j <= e <= |t| && (e < |t| ==> t[e] == '\n')
    decreases |t| - j
  {
    if j == |t| || t[j] == '\n' then j else FeedEnd(t, j + 1)
  }

  /** Where the anchor line ends if it matches at `j`. */
  function MatchLine(t: string, j: nat, line: Line): (r: Option<nat>)
    requires j <= |t|
    ensures r.Some? ==> j <= r.value <= |t|
    ensures r.Some? && !line.Open? ==> j < r.value && t[r.value - 1] == '\n'
  {
    var s := SpacesEnd(t, j);
    var e := s + |line.lit|;
    if e > |t| || t[s..e] != line.lit then None
    else
      match line
      case Exact(_) => if e < |t| && t[e] == '\n' then Some(e + 1) else None
      case Prefix(_) => if FeedEnd(t, e) < |t| then Some(FeedEnd(t, e) + 1) else None
      case Open(_) => Some(e)
  }

  function MatchAnchor(t: string, j: nat, anchor: seq<Line>): (r: Option<nat>)
    requires j <= |t|
    ensures r.Some? ==> j <= r.value <= |t|
    decreases |anchor|
  {
    if anchor == [] then Some(j)
    else
      var e := MatchLine(t, j, anchor[0]);
      if e == None then None else MatchAnchor(t, e.value, anchor[1..])
  }

  predicate LineStart(t: string, j: nat) { j == 0 || (j <= |t| && t[j - 1] == '\n') }

  /** All matches, leftmost first, none overlapping the one before. */
  function FindAll(t: string, j: nat, anchor: seq<Line>): (ms: seq<Match>)
    requires j <= |t|
    ensures forall k :: 0 <= k < |ms| ==> ms[k].from <= ms[k].text <= |t| && ms[k].from <= ms[k].to <= |t|
    ensures forall k :: 0 <= k < |ms| ==> LineStart(t, ms[k].from) && ms[k].text == SpacesEnd(t, ms[k].from)
                                          && MatchAnchor(t, ms[k].from, anchor) == Some(ms[k].to)
    decreases |t| - j
  {
    var e := if LineStart(t, j) then MatchAnchor(t, j, anchor) else None;
    if e == None then if j == |t| then [] else FindAll(t, j + 1, anchor)
    else
      var m := Match(j, SpacesEnd(t, j), e.value);
      [m] + if e.value > j then FindAll(t, e.value, anchor) else if j == |t| then [] else FindAll(t, j + 1, anchor)
  }

  // ---- on ----

  /** The inserted lines. */
  function Added(indent: string, lines: seq<string>): string {
    if lines == [] then "" else (indent + lines[0] + TAG_END + "\n") + Added(indent, lines[1..])
  }

  /** The replaced lines, kept. */
  function Kept(m: string): string
    decreases |m|
  {
    if m == "" then "" else ORIG + FirstPiece(m) + Kept(OtherPieces(m))
  }

  function ApplyStep(t: string, s: Step): Option<string> {
    var found := FindAll(t, 0, s.anchor);
    if |found| != 1 then None
    else
      var m := found[0];
      var added := Added(t[m.from..m.text], s.lines);
      match s.mode
      case InsertBefore => Some(t[..m.from] + added + t[m.from..])
      case InsertAfter => Some(t[..m.to] + added + t[m.to..])
      case Replace => Some(t[..m.from] + (Kept(t[m.from..m.to]) + added) + t[m.to..])
  }

  /** The text after all steps, or the name of the first whose anchor is not there exactly once. */
  function ApplySteps(t: string, steps: seq<Step>): (string, Status)
    decreases |steps|
  {
    if steps == [] then (t, Patched)
    else
      var out := ApplyStep(t, steps[0]);
      if out == None then (t, AnchorMissing(steps[0].name)) else ApplySteps(out.value, steps[1..])
  }

  function Apply(t: string, steps: seq<Step>): (string, Status) {
    if Contains(t, TAG) then (t, Already)
    else
      var r := ApplySteps(t, steps);
      if r.1 == Patched then r else (t, r.1)
  }

  /** apply_topics: all steps, or the text untouched. */
  method ApplyTopics(t: string, steps: seq<Step>) returns (out: string, status: Status)
    ensures (out, status) == Apply(t, steps)
    ensures status != Patched ==> out == t
  {
    if Contains(t, TAG) {
      return t, Already;
    }
    out := t;
    for k := 0 to |steps|
      invariant ApplySteps(out, steps[k..]) == ApplySteps(t, steps)
    {
      var next := ApplyStep(out, steps[k]);
      assert steps[k..][1..] == steps[k + 1..];
      if next == None {
        return t, AnchorMissing(steps[k].name);
      }
      out := next.value;
    }
    status := Patched;
  }

  // ---- off ----

  function RemoveLine(line: string): string {
    if EndsWith(Chop(line), TAG_END) then ""
    else if StartsWith(line, ORIG) then line[|ORIG|..]
    else line
  }

  function Strip(t: string): string
    decreases |t|
  {
    if t == "" then "" else RemoveLine(FirstPiece(t)) + Strip(OtherPieces(t))
  }

  predicate Marked(t: string) { Contains(t, TAG) || Contains(t, ORIG) }

  function Remove(t: string): string { if Marked(t) then Strip(t) else t }

  /** remove_topics, line by line. */
  method RemoveTopics(t: string) returns (out: string, removed: bool)
    ensures out == Remove(t) && removed == Marked(t)
  {
    if !Contains(t, TAG) && !Contains(t, ORIG) {
      return t, false;
    }
    hide Contains, RemoveLine, FirstPiece, OtherPieces;
    out := "";
    var rest := t;
    while rest != ""
      invariant out + Strip(rest) == Strip(t)
      decreases |rest|
    {
      var line := FirstPiece(rest);
      rest := OtherPieces(rest);
      var kept := RemoveLine(line);
      Regroup(out, kept, Strip(rest));
      out := out + kept;
    }
    removed := true;
  }

  // ---- off undoes on ----

  predicate ApartAt(a: string, b: string, k: nat) { k < |a| && k < |b| && a[|a| - 1 - k] != b[|b| - 1 - k] }

  /** The two differ at some place counted from their ends. */
  predicate EndsApart(a: string, b: string) { exists k: nat :: k < |a| && ApartAt(a, b, k) }

  /** A replaced line: matched to its end, no kept line already, no tagged line. */
  predicate GoodReplaced(x: Line) {
    x.Exact? && x.lit != "" && x.lit[0] != '/' && x.lit[0] != ' ' && BreakFree(x.lit) && EndsApart(x.lit, TAG_END)
  }

  /** What the step table promises: an anchor that is inserted after or replaced ends a line; inserted lines hold no
      line break; a replaced line is neither tagged nor kept. */
  predicate GoodStep(s: Step) {
    && s.anchor != []
    && (forall k :: 0 <= k < |s.anchor| ==> s.anchor[k].lit != "")
    && (s.mode != InsertBefore ==> forall k :: 0 <= k < |s.anchor| ==> !s.anchor[k].Open?)
    && (s.mode == Replace ==> forall k :: 0 <= k < |s.anchor| ==> GoodReplaced(s.anchor[k]))
    && (forall k :: 0 <= k < |s.lines| ==> BreakFree(s.lines[k]))
  }

  lemma {:induction false} StripCat(a: string, b: string)
    requires Closed(a)
    ensures Strip(a + b) == Strip(a) + Strip(b)
    decreases |a|
  {
    if a == "" {
      assert a + b == b;
    } else {
      FirstPieceCat(a, b);
      hide RemoveLine, FirstPiece, PieceEnd, Closed;
      StripCat(OtherPieces(a), b);
      hide OtherPieces;
      Regroup(RemoveLine(FirstPiece(a)), Strip(OtherPieces(a)), Strip(b));
    }
  }

  lemma StripTagged(s: string)
    requires BreakFree(s)
    ensures Strip(s + TAG_END + "\n") == ""
  {
    var line := s + TAG_END;
    TagFacts();
    assert BreakFree(line) && line[|line| - 1] != '\n' && EndsWith(line, TAG_END);
    hide BreakFree, FirstPiece, OtherPieces, Chop, EndsWith;
    OneLine(line);
    ChopLine(line);
    assert RemoveLine(line + "\n") == "" && Strip("") == "";
  }

  lemma TagFacts()
    ensures BreakFree(TAG_END) && TAG_END != "" && TAG_END[|TAG_END| - 1] == ')'
  {}

  lemma {:induction false} StripAdded(indent: string, lines: seq<string>)
    requires BreakFree(indent) && forall k :: 0 <= k < |lines| ==> BreakFree(lines[k])
    ensures Closed(Added(indent, lines)) && Strip(Added(indent, lines)) == ""
  {
    if lines != [] {
      var line := indent + lines[0] + TAG_END + "\n";
      StripTagged(indent + lines[0]);
      StripAdded(indent, lines[1..]);
      hide Strip, BreakFree;
      StripCat(line, Added(indent, lines[1..]));
    }
  }

  lemma NotTagged(s: string, body: string)
    requires EndsApart(body, TAG_END) && EndsWith(s, body)
    ensures !EndsWith(s, TAG_END)
  {
    var k: nat :| k < |body| && ApartAt(body, TAG_END, k);
    assert s[|s| - 1 - k] == body[|body| - 1 - k];
    var n := |TAG_END|;
    assert n <= |s| ==> s[|s| - n..][n - 1 - k] == s[|s| - 1 - k];
  }

  lemma OrigFacts()
    ensures BreakFree(ORIG) && ORIG != "" && ORIG[0] == '/'
  {}

  /** A replaced line survives as it is, and comes back from behind the prefix. */
  lemma ReplacedLine(indent: string, x: Line)
    requires GoodReplaced(x) && forall k :: 0 <= k < |indent| ==> indent[k] == ' '
    ensures var line := indent + x.lit + "\n";
            && Closed(line) && FirstPiece(line) == line && OtherPieces(line) == ""
            && Strip(line) == line && Strip(ORIG + line) == line
  {
    hide EndsApart, Chop, EndsWith;
    var body := indent + x.lit;
    var line := body + "\n";
    OrigFacts();
    assert BreakFree(body) && BreakFree(ORIG + body);
    OneLine(body);
    OneLine(ORIG + body);
    LastChar(body, x.lit);
    ChopLine(body);
    ChopLine(ORIG + body);
    NotTagged(body, x.lit);
    NotTagged(ORIG + body, x.lit);
    assert ORIG + line == ORIG + body + "\n";
    assert line[0] != '/';
    assert RemoveLine(line) == line;
    assert StartsWith(ORIG + line, ORIG) && (ORIG + line)[|ORIG|..] == line;
    assert RemoveLine(ORIG + line) == line;
    assert Strip("") == "";
  }

  lemma LastChar(body: string, lit: string)
    requires lit != "" && BreakFree(body) && |lit| <= |body| && body[|body| - |lit|..] == lit
    ensures body[|body| - 1] != '\n' && (ORIG + body)[|ORIG + body| - 1] != '\n' && EndsWith(body, lit)
    ensures EndsWith(ORIG + body, lit)
  {
    assert (ORIG + body)[|ORIG + body| - |lit|..] == lit;
  }

  lemma {:induction false} AnchorEnds(t: string, j: nat, anchor: seq<Line>, e: nat)
    requires j <= |t| && anchor != [] && MatchAnchor(t, j, anchor) == Some(e)
    requires forall k :: 0 <= k < |anchor| ==> !anchor[k].Open?
    ensures j < e && t[e - 1] == '\n'
    decreases |anchor|
  {
    if |anchor| > 1 {
      AnchorEnds(t, MatchLine(t, j, anchor[0]).value, anchor[1..], e);
    }
  }

  /** The matched text of a replaced anchor survives as it is, and comes back from behind the prefixes. */
  lemma {:induction false} ReplacedText(t: string, j: nat, anchor: seq<Line>, e: nat)
    requires j <= |t| && MatchAnchor(t, j, anchor) == Some(e)
    requires forall k :: 0 <= k < |anchor| ==> GoodReplaced(anchor[k])
    ensures var m := t[j..e]; Closed(m) && Strip(m) == m && Closed(Kept(m)) && Strip(Kept(m)) == m
    decreases |anchor|
  {
    if anchor != [] {
      var x, i := anchor[0], MatchLine(t, j, anchor[0]).value;
      var b := SpacesEnd(t, j);
      var line, rest := t[j..b] + x.lit + "\n", t[i..e];
      ExactText(t, j, x, i, e);
      hide MatchLine, Strip, FirstPiece, OtherPieces, Kept;
      ReplacedText(t, i, anchor[1..], e);
      ReplacedLine(t[j..b], x);
      ReplacedCat(line, rest);
    }
  }

  lemma ExactText(t: string, j: nat, x: Line, i: nat, e: nat)
    requires j <= |t| && x.Exact? && MatchLine(t, j, x) == Some(i) && i <= e <= |t|
    ensures t[j..e] == t[j..SpacesEnd(t, j)] + x.lit + "\n" + t[i..e]
  {
    var b := SpacesEnd(t, j);
    assert t[j..i] == t[j..b] + t[b..i - 1] + [t[i - 1]];
    assert t[j..e] == t[j..i] + t[i..e];
  }

  lemma ReplacedCat(line: string, rest: string)
    requires line != "" && Closed(line) && FirstPiece(line) == line && OtherPieces(line) == ""
    requires Strip(line) == line && Strip(ORIG + line) == line
    requires Closed(rest) && Strip(rest) == rest && Closed(Kept(rest)) && Strip(Kept(rest)) == rest
    ensures var m := line + rest; Closed(m) && Strip(m) == m && Closed(Kept(m)) && Strip(Kept(m)) == m
  {
    hide Strip, FirstPiece, OtherPieces;
    FirstPieceCat(line, rest);
    assert "" + rest == rest;
    assert Kept(line + rest) == ORIG + line + Kept(rest);
    StripCat(line, rest);
    StripCat(ORIG + line, Kept(rest));
  }

  /** One step on a text, then the patch off: the step leaves no trace. */
  lemma {:induction false} StepLeavesNoTrace(t: string, s: Step, out: string)
    requires GoodStep(s) && ApplyStep(t, s) == Some(out)
    ensures Strip(out) == Strip(t)
  {
    hide MatchAnchor, FindAll, SpacesEnd, Strip, GoodReplaced, Kept, Added, Closed;
    var m := FindAll(t, 0, s.anchor)[0];
    var added := Added(t[m.from..m.text], s.lines);
    StripAdded(t[m.from..m.text], s.lines);
    ClosedBefore(t, m.from);
    if s.mode == InsertBefore {
      Insertion(t[..m.from], added, t[m.from..]);
      Cuts(t, m.from, m.from);
    } else {
      AnchorEnds(t, m.from, s.anchor, m.to);
      ClosedBefore(t, m.to);
      Cuts(t, m.from, m.to);
      if s.mode == InsertAfter {
        Insertion(t[..m.to], added, t[m.to..]);
      } else {
        ReplacedText(t, m.from, s.anchor, m.to);
        Replacement(t[..m.from], t[m.from..m.to], added, t[m.to..]);
      }
    }
  }

  lemma ClosedBefore(t: string, j: nat)
    requires j <= |t| && LineStart(t, j)
    ensures Closed(t[..j])
  {}

  lemma Cuts(t: string, i: nat, j: nat)
    requires i <= j <= |t|
    ensures t == t[..i] + t[i..] == t[..j] + t[j..] == t[..i] + t[i..j] + t[j..]
  {}

  lemma Insertion(a: string, added: string, b: string)
    requires Closed(a) && Closed(added) && Strip(added) == ""
    ensures Strip(a + added + b) == Strip(a + b)
  {
    hide Strip;
    StripCat(a + added, b);
    StripCat(a, added);
    StripCat(a, b);
  }

  lemma Replacement(a: string, m: string, added: string, b: string)
    requires Closed(a) && Closed(added) && Strip(added) == ""
    requires Closed(m) && Strip(m) == m && Closed(Kept(m)) && Strip(Kept(m)) == m
    ensures Strip(a + (Kept(m) + added) + b) == Strip(a + m + b)
  {
    hide Strip, Kept;
    StripCat(a + (Kept(m) + added), b);
    StripCat(a, Kept(m) + added);
    StripCat(Kept(m), added);
    StripCat(a + m, b);
    StripCat(a, m);
  }

  lemma {:induction false} StepsLeaveNoTrace(t: string, steps: seq<Step>)
    requires (forall k :: 0 <= k < |steps| ==> GoodStep(steps[k])) && ApplySteps(t, steps).1 == Patched
    ensures Strip(ApplySteps(t, steps).0) == Strip(t)
    decreases |steps|
  {
    if steps != [] {
      var out := ApplyStep(t, steps[0]).value;
      StepLeavesNoTrace(t, steps[0], out);
      StepsLeaveNoTrace(out, steps[1..]);
    }
  }

  /** A text none of whose lines starts with the prefix of a kept line. */
  predicate NoKeptLine(t: string)
    decreases |t|
  {
    t != "" ==> !StartsWith(FirstPiece(t), ORIG) && NoKeptLine(OtherPieces(t))
  }

  lemma {:induction false} ChopPrefix(s: string)
    ensures |Chop(s)| <= |s| && s[..|Chop(s)|] == Chop(s)
  {
    if s != "" && s[|s| - 1] == '\n' { ChopPrefix(s[..|s| - 1]); }
  }

  lemma TaggedLineContains(line: string)
    requires EndsWith(Chop(line), TAG_END)
    ensures Contains(line, TAG)
  {
    ChopPrefix(line);
    var c := Chop(line);
    assert TAG_END[1..] == TAG;
    assert c[|c| - |TAG|..] == c[|c| - |TAG_END|..][1..];
    assert line[|c| - |TAG|..|c|] == c[|c| - |TAG|..];
    assert OccursAt(line, |c| - |TAG|, TAG);
  }

  lemma ContainsPart(a: string, b: string, p: string)
    ensures Contains(a, p) || Contains(b, p) ==> Contains(a + b, p)
  {
    if k: nat :| k <= |a| && OccursAt(a, k, p) {
      assert (a + b)[k..k + |p|] == a[k..k + |p|];
      assert OccursAt(a + b, k, p);
    } else if k: nat :| k <= |b| && OccursAt(b, k, p) {
      assert (a + b)[|a| + k..|a| + k + |p|] == b[k..k + |p|];
      assert OccursAt(a + b, |a| + k, p);
    }
  }

  /** Off a text without tagged lines only unkeeps its kept lines. */
  lemma {:induction false} StripUntagged(t: string)
    requires !Contains(t, TAG)
    ensures |Strip(t)| <= |t| && (Strip(t) == t <==> NoKeptLine(t))
    ensures !Contains(t, ORIG) ==> NoKeptLine(t)
    decreases |t|
  {
    hide Contains, EndsWith, Chop;
    if t != "" {
      var line, rest := FirstPiece(t), OtherPieces(t);
      assert t == line + rest;
      ContainsPart(line, rest, TAG);
      ContainsPart(line, rest, ORIG);
      if EndsWith(Chop(line), TAG_END) { TaggedLineContains(line); }
      if StartsWith(line, ORIG) { KeptLineContains(line); }
      StripUntagged(rest);
      if RemoveLine(line) == line {
        assert Strip(t) == t ==> t[|line|..] == Strip(rest);
      }
    }
  }

  lemma KeptLineContains(line: string)
    requires StartsWith(line, ORIG)
    ensures Contains(line, ORIG)
  {
    assert OccursAt(line, 0, ORIG);
  }

  lemma RemoveIsStrip(t: string)
    ensures Remove(t) == Strip(t)
  {
    if !Marked(t) { StripUntagged(t); }
  }

  /** Taking the patch off gives back the text it was put on, character by character, exactly if no line of that text
      started with the prefix of a kept line; putting it on again gives the same patched text. */
  lemma {:induction false} OffUndoesOn(t: string, steps: seq<Step>)
    requires (forall k :: 0 <= k < |steps| ==> GoodStep(steps[k])) && Apply(t, steps).1 == Patched
    ensures var on := Apply(t, steps).0;
            && (Remove(on) == t <==> NoKeptLine(t))
            && (NoKeptLine(t) ==> Apply(Remove(on), steps) == Apply(t, steps))
  {
    StepsLeaveNoTrace(t, steps);
    RemoveIsStrip(Apply(t, steps).0);
    StripUntagged(t);
  }

  /** A text without a line break in it does not reach over the end of a line. */
  lemma NoneAcross(a: string, b: string, p: string)
    requires p != "" && BreakFree(p) && (a == "" || IsBreak(a[|a| - 1]))
    requires !Contains(a, p) && !Contains(b, p)
    ensures !Contains(a + b, p)
  {
    forall k: nat | k <= |a + b| ensures !OccursAt(a + b, k, p) {
      if k + |p| <= |a| {
        assert (a + b)[k..k + |p|] == a[k..k + |p|];
        assert !OccursAt(a, k, p);
      } else if k < |a| {
        if OccursAt(a + b, k, p) { CharOf(a + b, k, p, |a| - 1 - k); }
      } else if k + |p| <= |a + b| {
        assert (a + b)[k..k + |p|] == b[k - |a|..k - |a| + |p|];
        assert !OccursAt(b, k - |a|, p);
      }
    }
  }

  /** Unkeeping lines makes no tag. */
  lemma {:induction false} StripTagFree(t: string)
    requires !Contains(t, TAG)
    ensures !Contains(Strip(t), TAG)
    decreases |t|
  {
    if t != "" {
      var line, rest := FirstPiece(t), OtherPieces(t);
      var kept := RemoveLine(line);
      assert t == line + rest;
      PieceEnds(t, 0);
      TagIsLine();
      hide BreakFree, IsBreak, PieceEnd, EndsWith, Chop;
      ContainsPart(line, rest, TAG);
      assert kept == "" || line == line[..|line| - |kept|] + kept;
      ContainsPart(line[..|line| - |kept|], kept, TAG);
      StripTagFree(rest);
      EmptyFree();
      hide Contains, RemoveLine, FirstPiece, OtherPieces;
      if rest == "" {
        assert kept + "" == kept;
      } else {
        NoneAcross(kept, Strip(rest), TAG);
      }
    } else {
      EmptyFree();
    }
  }

  lemma EmptyFree()
    ensures !Contains("", TAG)
  {}

  lemma TagIsLine()
    ensures TAG != "" && BreakFree(TAG)
  {}

  /** Taking it off twice is taking it off once exactly if no line of the text that came back starts with the prefix
      of a kept line; so it is for every text that comes back as it was. */
  lemma {:induction false} OffTwice(t: string, steps: seq<Step>)
    requires (forall k :: 0 <= k < |steps| ==> GoodStep(steps[k])) && Apply(t, steps).1 == Patched
    ensures var off := Remove(Apply(t, steps).0);
            (Remove(off) == off <==> NoKeptLine(off)) && (NoKeptLine(t) ==> Remove(off) == off)
  {
    OffUndoesOn(t, steps);
    StepsLeaveNoTrace(t, steps);
    RemoveIsStrip(Apply(t, steps).0);
    StripTagFree(t);
    RemoveIsStrip(Strip(t));
    StripUntagged(Strip(t));
  }

  lemma {:induction false} LastStepTags(t: string, steps: seq<Step>)
    requires steps != [] && ApplySteps(t, steps).1 == Patched && steps[|steps| - 1].lines != []
    ensures Contains(ApplySteps(t, steps).0, TAG)
    decreases |steps|
  {
    var out := ApplyStep(t, steps[0]).value;
    if |steps| > 1 {
      LastStepTags(out, steps[1..]);
    } else {
      assert ApplySteps(out, []) == (out, Patched);
      StepTags(t, steps[0]);
    }
  }

  lemma StepTags(t: string, s: Step)
    requires ApplyStep(t, s).Some? && s.lines != []
    ensures Contains(ApplyStep(t, s).value, TAG)
  {
    hide Contains, FindAll, Kept;
    var m := FindAll(t, 0, s.anchor)[0];
    var indent := t[m.from..m.text];
    var added, tail := Added(indent, s.lines), Added(indent, s.lines[1..]);
    TagContains();
    ContainsPart(indent + s.lines[0], TAG_END, TAG);
    ContainsPart(indent + s.lines[0] + TAG_END, "\n", TAG);
    ContainsPart(indent + s.lines[0] + TAG_END + "\n", tail, TAG);
    var kept := if s.mode == Replace then Kept(t[m.from..m.to]) else "";
    var a := t[..if s.mode == InsertAfter then m.to else m.from];
    var b := t[if s.mode == InsertBefore then m.from else m.to..];
    assert "" + added == added;
    ContainsPart(kept, added, TAG);
    ContainsPart(a, kept + added, TAG);
    ContainsPart(a + (kept + added), b, TAG);
  }

  lemma TagContains()
    ensures Contains(TAG_END, TAG)
  {
    assert |TAG_END| == 1 + |TAG|;
    assert TAG_END[1..] == TAG;
    assert TAG_END[1..1 + |TAG|] == TAG_END[1..];
    assert OccursAt(TAG_END, 1, TAG);
  }

  /** A patched text is left alone. */
  lemma OnTwice(t: string, steps: seq<Step>)
    requires steps != [] && steps[|steps| - 1].lines != [] && Apply(t, steps).1 == Patched
    ensures Apply(Apply(t, steps).0, steps) == (Apply(t, steps).0, Already)
  {
    LastStepTags(t, steps);
  }

  /** The switch over any text without a mark: on reports patched, off gives the original back, on again the patched
      text; on a patched text, on changes nothing. */
  lemma {:induction false} TopicsRoundTrip(t: string, steps: seq<Step>)
    requires (forall k :: 0 <= k < |steps| ==> GoodStep(steps[k])) && steps != [] && steps[|steps| - 1].lines != []
    requires !Marked(t) && Apply(t, steps).1 == Patched
    ensures var on := Apply(t, steps).0;
            Remove(on) == t && Apply(Remove(on), steps) == (on, Patched) && Apply(on, steps) == (on, Already)
  {
    hide GoodStep, Apply, Remove, Contains, NoKeptLine;
    OffUndoesOn(t, steps);
    OnTwice(t, steps);
    StripUntagged(t);
  }
}
