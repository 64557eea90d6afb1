/** The node source scanner of scripts/hook-load-watch.py: `js_scan`, `blank_spans` and `js_code_only`.

    The scanner walks a text once, with a stack for template literals and their `${...}` expressions, and reports
    where the comments and where the literals are. `Scan` is that walk as a function of the text, `JsScan` the same
    walk as the loop it is; module JsTokens proves what the walk means. */
module JsScanner {

  /** How the host language classifies characters (Python's str.isalnum and str.isspace). */
  datatype Charset = Charset(alnum: char -> bool, space: char -> bool)

  /** Whatever the classification of the other characters, the marks that open or close a lexeme are no letters or
      digits, and a slash is no white space. */
  predicate Sane(u: Charset) {
    !u.alnum('/') && !u.alnum('`') && !u.alnum('\'') && !u.alnum('"') && !u.alnum('}') && !u.space('/')
  }

  datatype Frame = Tpl(start: nat) | Expr(depth: nat)

  /** The last significant thing before the cursor: nothing, a character, or the closing paren of a condition. */
  datatype Prev = Nothing | Ch(c: char) | CondClose

  type Span = (nat, nat)

  datatype State = State(i: nat, prev: Prev, word: string, parens: seq<bool>, stack: seq<Frame>,
                         spans: seq<Span>, lits: seq<Span>)

  const REGEX_BEFORE: string := "(,=:[!&|?{};+-*%<>~^"
  const REGEX_WORDS: set<string> := {"return", "typeof", "case", "do", "else", "in", "of", "new", "delete", "void",
                                     "throw", "yield", "await"}
  const CONDITION_WORDS: set<string> := {"if", "while", "for", "with"}

  predicate WordChar(u: Charset, c: char) { u.alnum(c) || c == '_' || c == '$' }

  predicate FlagChar(u: Charset, c: char) { u.alnum(c) || c == '_' }

  /** Whether a slash after this context opens a regex literal. */
  predicate RegexAllowed(prev: Prev, word: string) {
    prev == Nothing || (prev.Ch? && prev.c in REGEX_BEFORE) || prev == CondClose || word in REGEX_WORDS
  }

  predicate InTemplate(stack: seq<Frame>) { stack != [] && stack[|stack| - 1].Tpl? }

  /** The bottom frame, if any, is the outermost template literal. */
  predicate WellStacked(stack: seq<Frame>) { stack != [] ==> stack[0].Tpl? }

  function Min(a: nat, b: nat): nat { if a < b then a else b }

  // ---- where each kind of lexeme ends ----

  function LineEnd(t: string, j: nat): (r: nat)
    requires j <= |t|
    ensures j <= r <= |t|
    decreases |t| - j
  {
    if j == |t| || t[j] == '\n' then j else LineEnd(t, j + 1)
  }

  function BlockEnd(t: string, j: nat): (r: nat)
    requires j <= |t|
    ensures j <= r <= |t|
    decreases |t| - j
  {
    if j + 1 >= |t| then |t|
    else if t[j] == '*' && t[j + 1] == '/' then j + 2
    else BlockEnd(t, j + 1)
  }

  function StringEnd(t: string, j: nat, q: char): (r: nat)
    ensures j <= r
    decreases |t| - j
  {
    if j >= |t| || t[j] == q || t[j] == '\n' then j
    else StringEnd(t, if t[j] == '\\' then j + 2 else j + 1, q)
  }

  function RegexEnd(t: string, j: nat, inClass: bool): (r: nat)
    ensures j <= r
    decreases |t| - j
  {
    if j >= |t| || t[j] == '\n' then j
    else if t[j] == '\\' then RegexEnd(t, j + 2, inClass)
    else if t[j] == '[' then RegexEnd(t, j + 1, true)
    else if t[j] == ']' then RegexEnd(t, j + 1, false)
    else if t[j] == '/' && !inClass then j
    else RegexEnd(t, j + 1, inClass)
  }

  function FlagsEnd(u: Charset, t: string, j: nat): (r: nat)
    ensures j <= r
    decreases |t| - j
  {
    if j < |t| && FlagChar(u, t[j]) then FlagsEnd(u, t, j + 1) else j
  }

  function WordEnd(u: Charset, t: string, j: nat): (r: nat)
    requires j <= |t|
    ensures j <= r <= |t|
    decreases |t| - j
  {
    if j < |t| && WordChar(u, t[j]) then WordEnd(u, t, j + 1) else j
  }

  predicate At(t: string, i: nat, c: char) { i < |t| && t[i] == c }

  // ---- one turn of the loop ----

  function TemplateStep(t: string, s: State): (r: State)
    requires s.i < |t| && InTemplate(s.stack)
    ensures r.i > s.i
    ensures WellStacked(s.stack) ==> WellStacked(r.stack)
  {
    var c := t[s.i];
    if c == '\\' then s.(i := s.i + 2)
    else if c == '`' then
      var k := |s.stack| - 1;
      s.(i := s.i + 1, prev := Ch('`'), word := "", stack := s.stack[..k],
      lits := if k == 0 then s.lits + [(s.stack[k].start, s.i + 1)] else s.lits)
    else if c == '$' && At(t, s.i + 1, '{') then
      s.(i := s.i + 2, prev := Ch('{'), word := "", stack := s.stack + [Expr(0)])
    else s.(i := s.i + 1)
  }

  /** A character that stands for itself: parens and braces are counted, anything but white space is remembered. */
  function PunctStep(u: Charset, c: char, s: State): (r: State)
    requires !InTemplate(s.stack)
    ensures r.i > s.i
    ensures WellStacked(s.stack) ==> WellStacked(r.stack)
  {
    var k := |s.stack| - 1;
    if c == ')' && s.parens != [] && s.parens[|s.parens| - 1] then
      s.(i := s.i + 1, prev := CondClose, word := "", parens := s.parens[..|s.parens| - 1])
    else if c == '}' && s.stack != [] && s.stack[k].depth == 0 then
      s.(i := s.i + 1, prev := Nothing, word := "", stack := s.stack[..k])
    else
      var parens := if c == '(' then s.parens + [s.word in CONDITION_WORDS]
                    else if c == ')' && s.parens != [] then s.parens[..|s.parens| - 1]
                    else s.parens;
      var stack := if c == '{' && s.stack != [] then s.stack[k := Expr(s.stack[k].depth + 1)]
                   else if c == '}' && s.stack != [] then s.stack[k := Expr(s.stack[k].depth - 1)]
                   else s.stack;
      var s' := s.(i := s.i + 1, parens := parens, stack := stack);
      if u.space(c) then s' else s'.(prev := Ch(c), word := "")
  }

  function CodeStep(u: Charset, t: string, s: State): (r: State)
    requires s.i < |t| && !InTemplate(s.stack)
    ensures r.i > s.i
    ensures WellStacked(s.stack) ==> WellStacked(r.stack)
  {
    var i, c := s.i, t[s.i];
    if c == '/' && At(t, i + 1, '/') then
      var j := LineEnd(t, i);
      s.(i := j, spans := s.spans + [(i, j)])
    else if c == '/' && At(t, i + 1, '*') then
      var j := BlockEnd(t, i + 2);
      s.(i := j, spans := s.spans + [(i, j)])
    else if c == '`' then
      s.(i := i + 1, stack := s.stack + [Tpl(i)])
    else if c == '\'' || c == '"' then
      var j := StringEnd(t, i + 1, c);
      s.(i := j + 1, prev := Ch(c), word := "", lits := s.lits + [(i, Min(j + 1, |t|))])
    else if c == '/' && RegexAllowed(s.prev, s.word) then
      var j := FlagsEnd(u, t, RegexEnd(t, i + 1, false) + 1);
      s.(i := j, prev := Ch('/'), word := "", lits := s.lits + [(i, Min(j, |t|))])
    else if WordChar(u, c) then
      var j := WordEnd(u, t, i);
      s.(i := j, word := t[i..j], prev := Ch(t[j - 1]))
    else PunctStep(u, c, s)
  }

  function Step(u: Charset, t: string, s: State): (r: State)
    requires s.i < |t|
    ensures r.i > s.i
    ensures WellStacked(s.stack) ==> WellStacked(r.stack)
  {
    if InTemplate(s.stack) then TemplateStep(t, s) else CodeStep(u, t, s)
  }

  function Run(u: Charset, t: string, s: State): (r: State)
    ensures r.i >= |t|
    ensures WellStacked(s.stack) ==> WellStacked(r.stack)
    decreases |t| - s.i
  {
    if s.i >= |t| then s else Run(u, t, Step(u, t, s))
  }

  predicate HasHashbang(t: string) { At(t, 0, '#') && At(t, 1, '!') }

  /** A hashbang line is a comment to node. */
  function Start(t: string): State {
    var i := if HasHashbang(t) then LineEnd(t, 0) else 0;
    State(i, Nothing, "", [], [], if HasHashbang(t) then [(0, i)] else [], [])
  }

  /** The comment spans and the literal spans; a template literal left open runs to the end of the text. */
  function Scan(u: Charset, t: string): (r: (seq<Span>, seq<Span>)) {
    var s := Run(u, t, Start(t));
    (s.spans, if s.stack == [] then s.lits else s.lits + [(s.stack[0].start, |t|)])
  }

  // ---- the loop itself ----

  method ScanString(t: string, i: nat, q: char) returns (j: nat)
    requires i < |t|
    ensures j == StringEnd(t, i + 1, q)
  {
    j := i + 1;
    while j < |t| && t[j] != q && t[j] != '\n'
      invariant StringEnd(t, j, q) == StringEnd(t, i + 1, q)
      decreases |t| - j
    {
      j := if t[j] == '\\' then j + 2 else j + 1;
    }
  }

  method ScanRegex(u: Charset, t: string, i: nat) returns (j: nat)
    requires i < |t|
    ensures j == FlagsEnd(u, t, RegexEnd(t, i + 1, false) + 1)
  {
    j := i + 1;
    var inClass := false;
    while j < |t| && t[j] != '\n'
      invariant RegexEnd(t, j, inClass) == RegexEnd(t, i + 1, false)
      decreases |t| - j
    {
      if t[j] == '\\' {
        j := j + 2;
        continue;
      }
      if t[j] == '[' {
        inClass := true;
      } else if t[j] == ']' {
        inClass := false;
      } else if t[j] == '/' && !inClass {
        break;
      }
      j := j + 1;
    }
    j := j + 1;
    while j < |t| && FlagChar(u, t[j])
      invariant FlagsEnd(u, t, j) == FlagsEnd(u, t, RegexEnd(t, i + 1, false) + 1)
      decreases |t| - j
    {
      j := j + 1;
    }
  }

  method ScanWord(u: Charset, t: string, i: nat) returns (j: nat)
    requires i < |t|
    ensures j == WordEnd(u, t, i)
  {
    j := i;
    while j < |t| && WordChar(u, t[j])
      invariant i <= j <= |t| && WordEnd(u, t, j) == WordEnd(u, t, i)
    {
      j := j + 1;
    }
  }

  /** The loop's turn inside a template literal. */
  method TemplateTurn(t: string, tplStart: nat, ghost s: State, i: nat, prev: Prev, word: string, stack: seq<Frame>,
                      lits: seq<Span>)
    returns (i': nat, prev': Prev, word': string, stack': seq<Frame>, lits': seq<Span>)
    requires i < |t| && InTemplate(stack) && stack[0] == Tpl(tplStart)
    requires s.i == i && s.prev == prev && s.word == word && s.stack == stack && s.lits == lits
    ensures s.(i := i', prev := prev', word := word', stack := stack', lits := lits') == TemplateStep(t, s)
    ensures stack' != [] ==> stack'[0] == Tpl(tplStart)
  {
    i', prev', word', stack', lits' := i, prev, word, stack, lits;
    var c := t[i];
    if c == '\\' {
      i' := i + 2;
    } else if c == '`' {
      stack' := stack[..|stack| - 1];
      if stack' == [] {
        lits' := lits + [(tplStart, i + 1)];
      }
      i', prev', word' := i + 1, Ch('`'), "";
    } else if c == '$' && At(t, i + 1, '{') {
      stack' := stack + [Expr(0)];
      i', prev', word' := i + 2, Ch('{'), "";
    } else {
      i' := i + 1;
    }
  }

  /** The loop's turn on a paren, a brace or any other single character. */
  method PunctTurn(u: Charset, c: char, ghost s: State, i: nat, prev: Prev, word: string, parens: seq<bool>,
                   stack: seq<Frame>)
    returns (i': nat, prev': Prev, word': string, parens': seq<bool>, stack': seq<Frame>)
    requires !InTemplate(stack) && WellStacked(stack)
    requires s.i == i && s.prev == prev && s.word == word && s.parens == parens && s.stack == stack
    ensures s.(i := i', prev := prev', word := word', parens := parens', stack := stack') == PunctStep(u, c, s)
    ensures stack' != [] ==> stack != [] && stack'[0] == stack[0]
  {
    i', prev', word', parens', stack' := i + 1, prev, word, parens, stack;
    if c == '(' {
      parens' := parens + [word in CONDITION_WORDS];
    } else if c == ')' {
      if parens != [] {
        parens' := parens[..|parens| - 1];
        if parens[|parens| - 1] {
          prev', word' := CondClose, "";
          return;
        }
      }
    } else if c == '{' && stack != [] {
      stack' := stack[|stack| - 1 := Expr(stack[|stack| - 1].depth + 1)];
    } else if c == '}' && stack != [] {
      if stack[|stack| - 1].depth == 0 {
        prev', word', stack' := Nothing, "", stack[..|stack| - 1];
        return;
      }
      stack' := stack[|stack| - 1 := Expr(stack[|stack| - 1].depth - 1)];
    }
    if !u.space(c) {
      prev', word' := Ch(c), "";
    }
  }

  /** The loop's turn on code that is no comment. */
  method CodeTurn(u: Charset, t: string, ghost s: State, i: nat, prev: Prev, word: string, parens: seq<bool>,
                  stack: seq<Frame>, lits: seq<Span>, tplStart: nat)
    returns (i': nat, prev': Prev, word': string, parens': seq<bool>, stack': seq<Frame>, lits': seq<Span>,
             tplStart': nat)
    requires i < |t| && !InTemplate(stack) && (stack != [] ==> stack[0] == Tpl(tplStart))
    requires t[i] == '/' ==> !At(t, i + 1, '/') && !At(t, i + 1, '*')
    requires s == State(i, prev, word, parens, stack, s.spans, lits)
    ensures State(i', prev', word', parens', stack', s.spans, lits') == CodeStep(u, t, s)
    ensures stack' != [] ==> stack'[0] == Tpl(tplStart')
  {
    i', prev', word', parens', stack', lits', tplStart' := i, prev, word, parens, stack, lits, tplStart;
    var c := t[i];
    if c == '`' {
      if stack == [] {
        tplStart' := i;
      }
      stack' := stack + [Tpl(i)];
      i' := i + 1;
    } else if c == '\'' || c == '"' {
      var j := ScanString(t, i, c);
      lits' := lits + [(i, Min(j + 1, |t|))];
      i', prev', word' := j + 1, Ch(c), "";
    } else if c == '/' && RegexAllowed(prev, word) {
      var j := ScanRegex(u, t, i);
      lits' := lits + [(i, Min(j, |t|))];
      i', prev', word' := j, Ch('/'), "";
    } else if WordChar(u, c) {
      var j := ScanWord(u, t, i);
      word', prev', i' := t[i..j], Ch(t[j - 1]), j;
    } else {
      i', prev', word', parens', stack' := PunctTurn(u, c, s, i, prev, word, parens, stack);
    }
  }

  /** The loop of js_scan. */
  method JsScan(u: Charset, t: string) returns (spans: seq<Span>, lits: seq<Span>)
    ensures (spans, lits) == Scan(u, t)
  {
    spans, lits := [], [];
    var i, n, prev: Prev, word: string, tplStart := 0, |t|, Nothing, "", 0;
    if HasHashbang(t) {
      i := LineEnd(t, 0);
      spans := [(0, i)];
    }
    var stack: seq<Frame>, parens: seq<bool> := [], [];
    ghost var s := Start(t);
    while i < n
      invariant stack != [] ==> stack[0] == Tpl(tplStart)
      invariant s == State(i, prev, word, parens, stack, spans, lits)
      invariant Run(u, t, s) == Run(u, t, Start(t))
      decreases n - i
    {
      if InTemplate(stack) {
        i, prev, word, stack, lits := TemplateTurn(t, tplStart, s, i, prev, word, stack, lits);
      } else if t[i] == '/' && At(t, i + 1, '/') {
        var j := LineEnd(t, i);
        spans := spans + [(i, j)];
        i := j;
      } else if t[i] == '/' && At(t, i + 1, '*') {
        var j := BlockEnd(t, i + 2);
        spans := spans + [(i, j)];
        i := j;
      } else {
        i, prev, word, parens, stack, lits, tplStart :=
          CodeTurn(u, t, s, i, prev, word, parens, stack, lits, tplStart);
      }
      s := Step(u, t, s);
    }
    if stack != [] {
      lits := lits + [(tplStart, n)];
    }
  }
}
