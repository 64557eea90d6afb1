/** What one step of the topics patch writes, and when it goes on: the step of module TopicsPatch against the text
    itself. */
module TopicsWrites {
  import opened Options
  import opened Strings
  import opened TextLines
  import opened TopicsLines
  import opened TopicsPatch

  // ---- where an anchor stands ----

  /** From `j` to `i` stand spaces, and no more follow. */
  ghost predicate IndentAt(t: string, j: nat, i: nat) {
    && j <= i <= |t| && (forall k :: j <= k < i ==> t[k] == ' ') && (i < |t| ==> t[i] != ' ')
  }

  /** From `i` to `e` stands an anchor line behind its indent: its literal and the line feed, its literal and the rest
      of the line, or its literal alone. */
  ghost predicate TextAt(t: string, i: nat, line: Line, e: nat) {
    i <= e <= |t|
    && match line
       case Exact(lit) => t[i..e] == lit + "\n"
       case Prefix(lit) => i + |lit| < e && t[i..i + |lit|] == lit && t[e - 1] == '\n'
                           && forall k :: i + |lit| <= k < e - 1 ==> t[k] != '\n'
       case Open(lit) => t[i..e] == lit
  }

  /** From `j` to `e` stand the lines of the anchor, each behind its indent. */
  ghost predicate LinesStand(t: string, j: nat, anchor: seq<Line>, e: nat)
    decreases |anchor|
  {
    if anchor == [] then j == e <= |t|
    else exists i: nat, m: nat :: IndentAt(t, j, i) && TextAt(t, i, anchor[0], m) && LinesStand(t, m, anchor[1..], e)
  }

  /** The anchor stands from `j` to `e`, at the start of a line. */
  ghost predicate StandsAt(t: string, anchor: seq<Line>, j: nat, e: nat) {
    (j == 0 || (j <= |t| && t[j - 1] == '\n')) && LinesStand(t, j, anchor, e)
  }

  /** It stands there and nowhere else: neither before it nor behind its end. */
  ghost predicate StandsOnce(t: string, anchor: seq<Line>, j: nat, e: nat) {
    && StandsAt(t, anchor, j, e)
    && (forall k: nat, f: nat :: StandsAt(t, anchor, k, f) ==> j <= k && (k == j || k < e))
  }

  /** No line of the anchor is empty or starts with a space. */
  predicate PlainAnchor(anchor: seq<Line>) {
    anchor != [] && forall k :: 0 <= k < |anchor| ==> anchor[k].lit != "" && anchor[k].lit[0] != ' '
  }

  lemma {:induction false} SpacesEndIs(t: string, j: nat, i: nat)
    requires IndentAt(t, j, i)
    ensures SpacesEnd(t, j) == i
    decreases i - j
  {
    if j < i { SpacesEndIs(t, j + 1, i); }
  }

  lemma {:induction false} IndentEnds(t: string, j: nat)
    requires j <= |t|
    ensures IndentAt(t, j, SpacesEnd(t, j))
    decreases |t| - j
  {
    if j < |t| && t[j] == ' ' { IndentEnds(t, j + 1); }
  }

  lemma {:induction false} FeedEndIs(t: string, j: nat, e: nat)
    requires j <= e < |t| && t[e] == '\n' && forall k :: j <= k < e ==> t[k] != '\n'
    ensures FeedEnd(t, j) == e
    decreases e - j
  {
    if j < e { FeedEndIs(t, j + 1, e); }
  }

  lemma {:induction false} FeedEndFirst(t: string, j: nat)
    requires j <= |t|
    ensures forall k :: j <= k < FeedEnd(t, j) ==> t[k] != '\n'
    decreases |t| - j
  {
    if j < |t| && t[j] != '\n' { FeedEndFirst(t, j + 1); }
  }

  lemma TailExactly(t: string, i: nat, line: Line, e: nat)
    requires LitAt(t, i, line.lit)
    ensures TailEnd(t, i + |line.lit|, line) == Some(e) <==> TextAt(t, i, line, e)
  {
    var m := i + |line.lit|;
    match line
    case Exact(lit) =>
      if m < |t| && t[m] == '\n' { assert t[i..m + 1] == lit + "\n"; }
      if TextAt(t, i, line, e) { assert e == m + 1 && t[m] == t[i..e][|lit|]; }
    case Prefix(lit) =>
      FeedEndFirst(t, m);
      if TextAt(t, i, line, e) { FeedEndIs(t, m, e - 1); }
    case Open(lit) =>
  }

  lemma TextHasLit(t: string, i: nat, line: Line, e: nat)
    requires TextAt(t, i, line, e)
    ensures LitAt(t, i, line.lit)
  {
    if line.Exact? { assert t[i..e][..|line.lit|] == t[i..i + |line.lit|]; }
  }

  /** An anchor line matches exactly where it stands behind its indent. */
  lemma MatchLineExactly(t: string, j: nat, line: Line, e: nat)
    requires j <= |t|
    ensures MatchLine(t, j, line) == Some(e) <==> exists i :: IndentAt(t, j, i) && TextAt(t, i, line, e)
  {
    var s := SpacesEnd(t, j);
    MatchLineIs(t, j, line);
    IndentEnds(t, j);
    if LitAt(t, s, line.lit) { TailExactly(t, s, line, e); }
    if i :| IndentAt(t, j, i) && TextAt(t, i, line, e) {
      SpacesEndIs(t, j, i);
      TextHasLit(t, i, line, e);
    }
    hide MatchLine, SpacesEnd, IndentAt, TextAt, TailEnd, LitAt;
  }

  lemma {:induction false} MatchAnchorExactly(t: string, j: nat, anchor: seq<Line>, e: nat)
    requires j <= |t|
    ensures MatchAnchor(t, j, anchor) == Some(e) <==> LinesStand(t, j, anchor, e)
    decreases |anchor|
  {
    hide MatchLine, IndentAt, TextAt;
    if anchor != [] {
      var r := MatchLine(t, j, anchor[0]);
      if r.Some? {
        MatchLineExactly(t, j, anchor[0], r.value);
        MatchAnchorExactly(t, r.value, anchor[1..], e);
      }
      forall i: nat, m: nat | IndentAt(t, j, i) && TextAt(t, i, anchor[0], m) ensures r == Some(m) {
        MatchLineExactly(t, j, anchor[0], m);
      }
    }
  }

  lemma StandsExactly(t: string, anchor: seq<Line>, j: nat, e: nat)
    requires j <= |t|
    ensures StandsAt(t, anchor, j, e) <==> EndAt(t, j, anchor) == Some(e)
  {
    MatchAnchorExactly(t, j, anchor, e);
    hide MatchAnchor, LinesStand;
  }

  lemma {:induction false} StandsOnward(t: string, j: nat, anchor: seq<Line>, e: nat)
    requires LinesStand(t, j, anchor, e) && forall k :: 0 <= k < |anchor| ==> anchor[k].lit != ""
    ensures j <= e <= |t| && (anchor != [] ==> j < e)
    decreases |anchor|
  {
    if anchor != [] {
      var i: nat, m: nat :| IndentAt(t, j, i) && TextAt(t, i, anchor[0], m) && LinesStand(t, m, anchor[1..], e);
      StandsOnward(t, m, anchor[1..], e);
      TextHasLit(t, i, anchor[0], m);
    }
  }

  // ---- the search ----

  /** No match from here on. */
  ghost predicate NoneFrom(t: string, j: nat, anchor: seq<Line>) {
    forall k: nat :: j <= k <= |t| ==> EndAt(t, k, anchor) == None
  }

  lemma NoneNext(t: string, j: nat, anchor: seq<Line>)
    requires j <= |t|
    ensures NoneFrom(t, j, anchor) <==> EndAt(t, j, anchor) == None && NoneFrom(t, j + 1, anchor)
  {
    hide EndAt;
  }

  /** Each match takes the reader past its end. */
  ghost predicate Onward(t: string, anchor: seq<Line>) {
    forall k: nat :: k <= |t| && EndAt(t, k, anchor).Some? ==> EndAt(t, k, anchor).value > k
  }

  lemma FromIs(t: string, j: nat, anchor: seq<Line>)
    requires j <= |t| && Onward(t, anchor)
    ensures var x := EndAt(t, j, anchor);
            From(t, j, anchor)
            == if x.Some? then [Match(j, SpacesEnd(t, j), x.value)] + From(t, x.value, anchor)
               else From(t, j + 1, anchor)
  {
    FindAllIs(t, j, anchor);
    hide FindAll, EndAt;
  }

  lemma {:induction false} FoundNone(t: string, j: nat, anchor: seq<Line>)
    requires Onward(t, anchor)
    ensures From(t, j, anchor) == [] <==> NoneFrom(t, j, anchor)
    decreases |t| + 1 - j
  {
    if j <= |t| {
      FromIs(t, j, anchor);
      NoneNext(t, j, anchor);
      hide From, EndAt, NoneFrom, SpacesEnd;
      FoundNone(t, j + 1, anchor);
    } else {
      hide EndAt;
    }
  }

  /** The only match from `j` on: none before it and none behind it. */
  ghost predicate OnlyFrom(t: string, j: nat, anchor: seq<Line>, f: nat, e: nat) {
    && j <= f <= |t| && EndAt(t, f, anchor) == Some(e) && NoneFrom(t, e, anchor)
    && forall k: nat :: j <= k < f ==> EndAt(t, k, anchor) == None
  }

  lemma OnlyNext(t: string, j: nat, anchor: seq<Line>, f: nat, e: nat)
    requires j <= |t|
    ensures OnlyFrom(t, j, anchor, f, e)
       <==> if EndAt(t, j, anchor).Some? then f == j && EndAt(t, j, anchor) == Some(e) && NoneFrom(t, e, anchor)
            else OnlyFrom(t, j + 1, anchor, f, e)
  {
    hide EndAt, NoneFrom;
  }

  ghost predicate IsOne(ms: seq<Match>, f: nat, e: nat) { |ms| == 1 && ms[0].from == f && ms[0].to == e }

  /** The search finds one match exactly if there is only one. */
  lemma {:induction false} FoundOne(t: string, j: nat, anchor: seq<Line>, f: nat, e: nat)
    requires Onward(t, anchor)
    ensures IsOne(From(t, j, anchor), f, e) <==> OnlyFrom(t, j, anchor, f, e)
    decreases |t| + 1 - j
  {
    if j <= |t| {
      FromIs(t, j, anchor);
      OnlyNext(t, j, anchor, f, e);
      var x := EndAt(t, j, anchor);
      hide From, EndAt, OnlyFrom, NoneFrom, SpacesEnd, Onward;
      if x.Some? {
        FoundNone(t, x.value, anchor);
      } else {
        FoundOne(t, j + 1, anchor, f, e);
      }
    }
  }

  lemma EndsExactly(t: string, anchor: seq<Line>, k: nat, x: nat)
    requires PlainAnchor(anchor)
    ensures StandsAt(t, anchor, k, x) <==> k <= |t| && EndAt(t, k, anchor) == Some(x)
    ensures StandsAt(t, anchor, k, x) ==> k < x
  {
    if LinesStand(t, k, anchor, x) { StandsOnward(t, k, anchor, x); }
    if k <= |t| { StandsExactly(t, anchor, k, x); }
    hide EndAt, LinesStand;
  }

  lemma OnlyIsOnce(t: string, anchor: seq<Line>, f: nat, e: nat)
    requires forall k: nat, x: nat :: StandsAt(t, anchor, k, x) <==> k <= |t| && EndAt(t, k, anchor) == Some(x)
    requires forall k: nat, x: nat :: StandsAt(t, anchor, k, x) ==> k < x
    ensures OnlyFrom(t, 0, anchor, f, e) <==> StandsOnce(t, anchor, f, e)
  {
    hide EndAt, StandsAt;
    assert forall k: nat :: k <= |t| && EndAt(t, k, anchor).Some? ==> StandsAt(t, anchor, k, EndAt(t, k, anchor).value);
    if OnlyFrom(t, 0, anchor, f, e) {
      forall k: nat, x: nat | StandsAt(t, anchor, k, x) ensures f <= k && (k == f || k < e) {
        assert EndAt(t, k, anchor) == Some(x);
      }
    }
  }

  lemma OnceExactly(t: string, anchor: seq<Line>, f: nat, e: nat)
    requires PlainAnchor(anchor)
    ensures IsOne(FindAll(t, 0, anchor), f, e) <==> StandsOnce(t, anchor, f, e)
  {
    forall k: nat, x: nat
      ensures StandsAt(t, anchor, k, x) <==> k <= |t| && EndAt(t, k, anchor) == Some(x)
      ensures StandsAt(t, anchor, k, x) ==> k < x
    {
      EndsExactly(t, anchor, k, x);
    }
    OnlyIsOnce(t, anchor, f, e);
    assert From(t, 0, anchor) == FindAll(t, 0, anchor);
    hide EndAt, StandsAt, FindAll, OnlyFrom, StandsOnce, IsOne;
    FoundOne(t, 0, anchor, f, e);
  }

  // ---- what a step writes ----

  function Concat(parts: seq<string>): string {
    if parts == [] then "" else parts[0] + Concat(parts[1..])
  }

  /** The lines of a text, each with its break. */
  function Pieces(t: string): seq<string>
    decreases |t|
  {
    if t == "" then [] else [FirstPiece(t)] + Pieces(OtherPieces(t))
  }

  /** The inserted lines: each behind the indent of the match, with the tag at its end. */
  function TaggedLines(indent: string, lines: seq<string>): seq<string> {
    seq(|lines|, k requires 0 <= k < |lines| => indent + lines[k] + " // MARVEEN-PATCH(tgtopics)" + "\n")
  }

  /** The replaced lines, each behind the prefix. */
  function Prefixed(lines: seq<string>): seq<string> {
    seq(|lines|, k requires 0 <= k < |lines| => "// MARVEEN-PATCH(tgtopics-orig) " + lines[k])
  }

  /** The text after a step whose anchor stands from `j` to `e`, the indent of its first line reaching to `i`. */
  ghost function Written(t: string, s: Step, j: nat, i: nat, e: nat): string
    requires j <= i <= |t| && j <= e <= |t|
  {
    var added := Concat(TaggedLines(t[j..i], s.lines));
    match s.mode
    case InsertBefore => t[..j] + added + t[j..]
    case InsertAfter => t[..e] + added + t[e..]
    case Replace => t[..j] + (Concat(Prefixed(Pieces(t[j..e]))) + added) + t[e..]
  }

  lemma {:induction false} AddedIs(indent: string, lines: seq<string>)
    ensures Added(indent, lines) == Concat(TaggedLines(indent, lines))
  {
    if lines != [] {
      AddedIs(indent, lines[1..]);
      assert TaggedLines(indent, lines)[1..] == TaggedLines(indent, lines[1..]);
    }
  }

  lemma {:induction false} KeptIs(m: string)
    ensures Kept(m) == Concat(Prefixed(Pieces(m)))
    decreases |m|
  {
    if m != "" {
      KeptIs(OtherPieces(m));
      assert Prefixed(Pieces(m))[1..] == Prefixed(Pieces(OtherPieces(m)));
    }
  }

  lemma PlacedIs(t: string, s: Step, m: Match)
    requires m.from <= m.text <= |t| && m.from <= m.to <= |t|
    ensures Placed(t, s, m) == Written(t, s, m.from, m.text, m.to)
  {
    AddedIs(t[m.from..m.text], s.lines);
    KeptIs(t[m.from..m.to]);
    hide Added, Kept, Concat, TaggedLines, Prefixed, Pieces;
  }

  /** The step goes on the text and makes it `u`: its anchor stands there once, and its lines are written before it,
      behind it, or behind its own lines kept. */
  ghost predicate Writes(t: string, s: Step, u: string) {
    exists j: nat, i: nat, e: nat ::
      StandsOnce(t, s.anchor, j, e) && IndentAt(t, j, i) && j <= e <= |t| && u == Written(t, s, j, i, e)
  }

  lemma {:induction false} StepExactly(t: string, s: Step, u: string)
    requires PlainAnchor(s.anchor)
    ensures ApplyStep(t, s) == Some(u) <==> Writes(t, s, u)
  {
    var found := FindAll(t, 0, s.anchor);
    ApplyStepIs(t, s);
    if |found| == 1 {
      OnceExactly(t, s.anchor, found[0].from, found[0].to);
      IndentEnds(t, found[0].from);
      PlacedIs(t, s, found[0]);
    }
    forall j: nat, i: nat, e: nat | StandsOnce(t, s.anchor, j, e) && IndentAt(t, j, i) && j <= e <= |t|
      ensures ApplyStep(t, s) == Some(Written(t, s, j, i, e))
    {
      OnceExactly(t, s.anchor, j, e);
      SpacesEndIs(t, j, i);
    }
    hide FindAll, ApplyStep, StandsOnce, Placed, Written, SpacesEnd;
  }

  // ---- the whole patch ----

  /** The steps go on one after the other and make the text `u`. */
  ghost predicate AllWrite(t: string, steps: seq<Step>, u: string)
    decreases |steps|
  {
    if steps == [] then u == t else exists v :: Writes(t, steps[0], v) && AllWrite(v, steps[1..], u)
  }

  /** The first steps go on, and the k-th finds its anchor not there or there more than once. */
  ghost predicate StopsAt(t: string, steps: seq<Step>, k: nat)
    decreases |steps|
  {
    k < |steps|
    && if k == 0 then forall v :: !Writes(t, steps[0], v)
       else exists v :: Writes(t, steps[0], v) && StopsAt(v, steps[1..], k - 1)
  }

  lemma {:induction false} StepsExactly(t: string, steps: seq<Step>, u: string, name: string)
    requires forall k :: 0 <= k < |steps| ==> PlainAnchor(steps[k].anchor)
    ensures ApplySteps(t, steps) == (u, Patched) <==> AllWrite(t, steps, u)
    ensures ApplySteps(t, steps).1 == AnchorMissing(name)
       <==> exists k: nat :: k < |steps| && StopsAt(t, steps, k) && steps[k].name == name
    ensures ApplySteps(t, steps).1 != Already
    decreases |steps|
  {
    hide Writes, ApplyStep;
    if steps != [] {
      var out, rest := ApplyStep(t, steps[0]), steps[1..];
      forall v ensures out == Some(v) <==> Writes(t, steps[0], v) { StepExactly(t, steps[0], v); }
      if out.Some? {
        StepsExactly(out.value, rest, u, name);
        if k: nat :| k < |rest| && StopsAt(out.value, rest, k) && rest[k].name == name {
          assert StopsAt(t, steps, k + 1) && steps[k + 1].name == name;
        }
        if k: nat :| k < |steps| && StopsAt(t, steps, k) && steps[k].name == name {
          assert k > 0 && StopsAt(out.value, rest, k - 1) && rest[k - 1].name == name;
        }
      } else {
        assert StopsAt(t, steps, 0);
      }
    }
  }

  /** The patch, exactly: on a text without its tag it writes all its steps, or names the first one whose anchor does
      not stand there once. */
  lemma {:induction false} ApplyExactly(t: string, steps: seq<Step>, u: string, name: string)
    requires forall k :: 0 <= k < |steps| ==> PlainAnchor(steps[k].anchor)
    ensures Apply(t, steps) == (u, Patched) <==> !Contains(t, "// MARVEEN-PATCH(tgtopics)") && AllWrite(t, steps, u)
    ensures Apply(t, steps) == (t, AnchorMissing(name))
       <==> !Contains(t, "// MARVEEN-PATCH(tgtopics)")
            && exists k: nat :: k < |steps| && StopsAt(t, steps, k) && steps[k].name == name
    ensures Apply(t, steps) == (t, Already) <==> Contains(t, "// MARVEEN-PATCH(tgtopics)")
  {
    StepsExactly(t, steps, u, name);
    hide ApplySteps, Contains, AllWrite, StopsAt;
  }
}
