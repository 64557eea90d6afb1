/** `blank_spans` and `js_code_only` of scripts/hook-load-watch.py: the source with its comments blanked.

    On any text the comment spans are in bounds, ordered and disjoint, so blanking them is defined and keeps the
    length and every line break; on a printed source it prints the tokens with the comments blanked. */
module JsCodeOnly {
  import opened JsScanner
  import opened JsTokens

  predicate Covered(spans: seq<Span>, k: nat) {
    exists j :: 0 <= j < |spans| && spans[j].0 <= k < spans[j].1
  }

  function BlankChar(c: char): char { if c == '\r' || c == '\n' then c else ' ' }

  /** The text that starts at offset `at`, with the characters in the spans blanked. */
  function BlankAt(t: string, at: nat, spans: seq<Span>): (r: string)
    ensures |r| == |t|
  {
    seq(|t|, k requires 0 <= k < |t| => if Covered(spans, at + k) then BlankChar(t[k]) else t[k])
  }

  /** Character by character: a span's characters read as spaces, but for its line breaks; all others are unchanged. */
  predicate BlankedIn(t: string, spans: seq<Span>, r: string) {
    && |r| == |t|
    && (forall j, k :: 0 <= j < |spans| && spans[j].0 <= k < spans[j].1 && k < |t| ==>
          r[k] == if t[k] == '\r' || t[k] == '\n' then t[k] else ' ')
    && (forall k :: 0 <= k < |t| && (forall j :: 0 <= j < |spans| ==> !(spans[j].0 <= k < spans[j].1)) ==> r[k] == t[k])
  }

  predicate InBounds(spans: seq<Span>, n: nat) {
    forall j :: 0 <= j < |spans| ==> spans[j].0 <= spans[j].1 <= n
  }

  /** Each span ends at or before the next one starts, and at or before `n`. */
  predicate Ordered(spans: seq<Span>, n: nat) {
    (forall j :: 0 <= j < |spans| ==> spans[j].0 < spans[j].1 <= n)
    && (forall j, k :: 0 <= j < k < |spans| ==> spans[j].1 <= spans[k].0)
  }

  /** blank_spans, in place on a list of characters. */
  method BlankSpans(t: string, spans: seq<Span>) returns (r: string)
    requires InBounds(spans, |t|)
    ensures r == BlankAt(t, 0, spans)
    ensures BlankedIn(t, spans, r)
  {
    var chars := new char[|t|](k requires 0 <= k < |t| => t[k]);
    for j := 0 to |spans|
      invariant forall k :: 0 <= k < |t| ==> chars[k] == if Covered(spans[..j], k) then BlankChar(t[k]) else t[k]
    {
      var (a, b) := spans[j];
      for x := a to b
        invariant forall k :: 0 <= k < |t| ==>
          chars[k] == if Covered(spans[..j], k) || a <= k < x then BlankChar(t[k]) else t[k]
      {
        if chars[x] != '\r' && chars[x] != '\n' {
          chars[x] := ' ';
        }
      }
      forall k | 0 <= k < |t| ensures Covered(spans[..j + 1], k) == (Covered(spans[..j], k) || a <= k < b) {
        CoveredCat(spans[..j], [spans[j]], k);
        assert spans[..j + 1] == spans[..j] + [spans[j]];
      }
    }
    assert spans[..|spans|] == spans;
    r := chars[..];
  }

  lemma CoveredCat(a: seq<Span>, b: seq<Span>, k: nat)
    ensures Covered(a + b, k) <==> Covered(a, k) || Covered(b, k)
  {
    if Covered(a, k) {
      var j :| 0 <= j < |a| && a[j].0 <= k < a[j].1;
      assert (a + b)[j] == a[j];
    } else if Covered(b, k) {
      var j :| 0 <= j < |b| && b[j].0 <= k < b[j].1;
      assert (a + b)[|a| + j] == b[j];
    }
  }

  // ---- on any text ----

  lemma StepOrdered(u: Charset, t: string, s: State)
    requires s.i < |t| && Ordered(s.spans, s.i)
    ensures Ordered(Step(u, t, s).spans, Min(Step(u, t, s).i, |t|))
  {
    hide RegexAllowed;
  }

  lemma {:induction false} RunOrdered(u: Charset, t: string, s: State)
    requires Ordered(s.spans, Min(s.i, |t|))
    ensures Ordered(Run(u, t, s).spans, |t|)
    decreases |t| - s.i
  {
    hide Step;
    if s.i < |t| {
      StepOrdered(u, t, s);
      RunOrdered(u, t, Step(u, t, s));
    }
  }

  /** The comment spans of any text at all are in bounds, ordered and disjoint. */
  lemma {:induction false} SpansOrdered(u: Charset, t: string)
    ensures Ordered(Scan(u, t).0, |t|)
  {
    RunOrdered(u, t, Start(t));
  }

  function CodeOnly(u: Charset, t: string): string { BlankAt(t, 0, Scan(u, t).0) }

  method JsCodeOnly(u: Charset, t: string) returns (r: string)
    ensures r == CodeOnly(u, t)
    ensures BlankedIn(t, Scan(u, t).0, r)
    ensures |r| == |t| && forall k :: 0 <= k < |t| && (t[k] == '\n' || t[k] == '\r') ==> r[k] == t[k]
  {
    var spans, _ := JsScan(u, t);
    SpansOrdered(u, t);
    r := BlankSpans(t, spans);
  }

  // ---- on a printed source ----

  function BlankText(t: string): (r: string)
    ensures |r| == |t|
  {
    seq(|t|, k requires 0 <= k < |t| => BlankChar(t[k]))
  }

  function PrintTokenBlanked(k: Token): string {
    match k
    case Line(_) => BlankText(PrintToken(k))
    case Block(_) => BlankText(PrintToken(k))
    case Template(parts) => "`" + PrintPartsBlanked(parts)
    case _ => PrintToken(k)
  }

  function PrintBlanked(code: Code): string {
    match code
    case End => ""
    case More(head, tail) => PrintTokenBlanked(head) + PrintBlanked(tail)
  }

  function PrintPartsBlanked(parts: Parts): string {
    match parts
    case Close => "`"
    case Text(item, rest) => PrintItem(item) + PrintPartsBlanked(rest)
    case Hole(code, rest) => "${" + (PrintBlanked(code) + ("}" + PrintPartsBlanked(rest)))
  }

  predicate Within(spans: seq<Span>, lo: nat, hi: nat) {
    forall j :: 0 <= j < |spans| ==> lo <= spans[j].0 && spans[j].1 <= hi
  }

  lemma BlankCat(a: string, b: string, at: nat, x: seq<Span>, y: seq<Span>)
    requires Within(x, at, at + |a|) && Within(y, at + |a|, at + |a| + |b|)
    ensures BlankAt(a + b, at, x + y) == BlankAt(a, at, x) + BlankAt(b, at + |a|, y)
    ensures Within(x + y, at, at + |a + b|)
  {
    forall k | 0 <= k < |a + b|
      ensures BlankAt(a + b, at, x + y)[k] == (BlankAt(a, at, x) + BlankAt(b, at + |a|, y))[k]
    {
      CoveredCat(x, y, at + k);
      if k < |a| {
        assert !Covered(y, at + k);
      } else {
        assert !Covered(x, at + k);
        assert BlankAt(b, at + |a|, y)[k - |a|] == BlankAt(a + b, at, x + y)[k];
      }
    }
  }

  lemma BlankNothing(a: string, at: nat)
    ensures BlankAt(a, at, []) == a
  {}

  lemma BlankAll(a: string, at: nat)
    ensures BlankAt(a, at, [(at, at + |a|)]) == BlankText(a)
  {
    var all: seq<Span> := [(at, at + |a|)];
    forall k | 0 <= k < |a| ensures BlankAt(a, at, all)[k] == BlankText(a)[k] {
      assert all[0].0 <= at + k < all[0].1;
    }
  }

  lemma BlankHole(code: Code, rest: Parts, at: nat)
    requires var e := at + 2 + |Print(code)| + 1;
             && Within(Comments(code, at + 2), at + 2, at + 2 + |Print(code)|)
             && BlankAt(Print(code), at + 2, Comments(code, at + 2)) == PrintBlanked(code)
             && Within(PartsComments(rest, e), e, e + |PrintParts(rest)|)
             && BlankAt(PrintParts(rest), e, PartsComments(rest, e)) == PrintPartsBlanked(rest)
    ensures var parts := Hole(code, rest);
            && Within(PartsComments(parts, at), at, at + |PrintParts(parts)|)
            && BlankAt(PrintParts(parts), at, PartsComments(parts, at)) == PrintPartsBlanked(parts)
  {
    HoleIs(code, rest, at);
    hide *;
    BlankBetween(Print(code), PrintParts(rest), at, Comments(code, at + 2),
                 PartsComments(rest, at + 2 + |Print(code)| + 1));
  }

  lemma BlankBetween(a: string, b: string, at: nat, cs: seq<Span>, ds: seq<Span>)
    requires var e := at + 2 + |a| + 1;
             Within(cs, at + 2, at + 2 + |a|) && Within(ds, e, e + |b|)
    ensures var all := "${" + (a + ("}" + b));
            && Within(cs + ds, at, at + |all|)
            && BlankAt(all, at, cs + ds)
               == "${" + (BlankAt(a, at + 2, cs) + ("}" + BlankAt(b, at + 2 + |a| + 1, ds)))
  {
    hide *;
    var e, c := at + 2 + |a|, "}" + b;
    BlankPrefix("}", b, e, ds);
    BlankCat(a, c, at + 2, cs, ds);
    BlankPrefix("${", a + c, at, cs + ds);
  }

  lemma HoleIs(code: Code, rest: Parts, at: nat)
    ensures var parts, e := Hole(code, rest), at + 2 + |Print(code)| + 1;
            && PrintParts(parts) == "${" + (Print(code) + ("}" + PrintParts(rest)))
            && PartsComments(parts, at) == Comments(code, at + 2) + PartsComments(rest, e)
            && PrintPartsBlanked(parts) == "${" + (PrintBlanked(code) + ("}" + PrintPartsBlanked(rest)))
  {}

  /** A text without spans in front changes nothing of what is blanked. */
  lemma BlankPrefix(a: string, b: string, at: nat, ds: seq<Span>)
    requires Within(ds, at + |a|, at + |a| + |b|)
    ensures Within(ds, at, at + |a + b|) && BlankAt(a + b, at, ds) == a + BlankAt(b, at + |a|, ds)
  {
    BlankNothing(a, at);
    NothingWithin();
    hide BlankAt, Within;
    BlankCat(a, b, at, [], ds);
    assert [] + ds == ds;
  }

  lemma NothingWithin()
    ensures forall lo: nat, hi: nat :: Within([], lo, hi)
  {}

  lemma {:induction false} BlankToken(k: Token, at: nat)
    ensures Within(TokenComments(k, at), at, at + |PrintToken(k)|)
    ensures BlankAt(PrintToken(k), at, TokenComments(k, at)) == PrintTokenBlanked(k)
    decreases k
  {
    if k.Template? {
      BlankParts(k.parts, at + 1);
      BlankPrefix("`", PrintParts(k.parts), at, PartsComments(k.parts, at + 1));
    } else if k.Line? || k.Block? {
      BlankAll(PrintToken(k), at);
    } else {
      BlankNothing(PrintToken(k), at);
    }
  }

  lemma {:induction false} BlankCode(code: Code, at: nat)
    ensures Within(Comments(code, at), at, at + |Print(code)|)
    ensures BlankAt(Print(code), at, Comments(code, at)) == PrintBlanked(code)
    decreases code
  {
    match code
    case End =>
    case More(head, tail) =>
      var p := PrintToken(head);
      BlankToken(head, at);
      BlankCode(tail, at + |p|);
      BlankCat(p, Print(tail), at, TokenComments(head, at), Comments(tail, at + |p|));
  }

  lemma {:induction false} BlankParts(parts: Parts, at: nat)
    ensures Within(PartsComments(parts, at), at, at + |PrintParts(parts)|)
    ensures BlankAt(PrintParts(parts), at, PartsComments(parts, at)) == PrintPartsBlanked(parts)
    decreases parts
  {
    match parts
    case Close =>
      BlankNothing("`", at);
    case Text(item, rest) =>
      var p, cs := PrintItem(item), PartsComments(rest, at + |PrintItem(item)|);
      BlankParts(rest, at + |p|);
      BlankPrefix(p, PrintParts(rest), at, cs);
    case Hole(code, rest) =>
      BlankCode(code, at + 2);
      BlankParts(rest, at + 2 + |Print(code)| + 1);
      BlankHole(code, rest, at);
  }

  /** Blanking the comments of a printed source prints its tokens with the comments blanked and nothing else changed. */
  lemma {:induction false} CodeOnlyOfPrint(u: Charset, f: Source)
    requires Sane(u) && FitsSource(u, f)
    ensures CodeOnly(u, PrintSource(f)) == BlankText(f.hashbang) + PrintBlanked(f.code)
  {
    ScanInvertsPrint(u, f);
    BlankSource(f);
    CodeOnlyIs(u, PrintSource(f));
    hide *;
  }

  lemma BlankSource(f: Source)
    ensures BlankAt(PrintSource(f), 0, SourceComments(f)) == BlankText(f.hashbang) + PrintBlanked(f.code)
  {
    var h, i := f.hashbang, |f.hashbang|;
    BlankCode(f.code, i);
    var first := if h == "" then [] else [(0, i)];
    assert BlankAt(h, 0, first) == BlankText(h) && Within(first, 0, i) by {
      if h != "" { BlankAll(h, 0); }
    }
    hide BlankAt, Within, BlankText, Print, PrintBlanked, Comments;
    BlankCat(h, Print(f.code), 0, first, Comments(f.code, i));
  }

  /** The same by place: the comment tokens of a printed source read as spaces, line breaks kept, and every character
      outside them is the one that was printed. */
  lemma {:induction false} CommentsReadBlank(u: Charset, f: Source)
    requires Sane(u) && FitsSource(u, f)
    ensures BlankedIn(PrintSource(f), SourceComments(f), CodeOnly(u, PrintSource(f)))
  {
    ScanInvertsPrint(u, f);
    hide *;
    BlankAtBlanks(PrintSource(f), SourceComments(f));
    assert CodeOnly(u, PrintSource(f)) == BlankAt(PrintSource(f), 0, SourceComments(f)) by {
      CodeOnlyIs(u, PrintSource(f));
    }
  }

  lemma CodeOnlyIs(u: Charset, t: string)
    ensures CodeOnly(u, t) == BlankAt(t, 0, Scan(u, t).0)
  {}

  lemma BlankAtBlanks(t: string, spans: seq<Span>)
    ensures BlankedIn(t, spans, BlankAt(t, 0, spans))
  {}
}
