/** What the scanner of module JsScanner means: it inverts the printer of a token tree.

    A node source is a list of tokens; a template literal holds the code of its `${...}` expressions, to any depth.
    `Fits` says when a printed list reads back as itself: tokens are maximal, a slash is a division or opens a regex
    literal as the code before it says, a `}` does not close more than was opened. For every such source the comment
    spans are exactly the places of the comment tokens, and blanking them prints the same tokens with the comments
    blanked. */
module JsTokens {
  import opened JsScanner

  /** One character of a string, a regex literal or a template text; an escaped one is printed after a backslash. */
  datatype Item = Plain(c: char) | Escaped(c: char)

  datatype Token =
    | Word(w: string)
    | Punct(c: char)
    | Str(q: char, items: seq<Item>)
    | Line(body: string)
    | Block(body: string)
    | Slash
    | Regex(items: seq<Item>, flags: string)
    | Template(parts: Parts)

  datatype Code = End | More(head: Token, tail: Code)

  /** The inside of a template literal, up to its closing backtick. */
  datatype Parts = Close | Text(item: Item, rest: Parts) | Hole(code: Code, rest: Parts)

  /** A source: an optional hashbang line (without its line break), then code. */
  datatype Source = Source(hashbang: string, code: Code)

  // ---- printing ----

  function PrintItem(x: Item): string {
    match x
    case Plain(c) => [c]
    case Escaped(c) => ['\\', c]
  }

  function PrintItems(xs: seq<Item>): string {
    if xs == [] then "" else PrintItem(xs[0]) + PrintItems(xs[1..])
  }

  function PrintToken(k: Token): string {
    match k
    case Word(w) => w
    case Punct(c) => [c]
    case Str(q, items) => [q] + (PrintItems(items) + [q])
    case Line(body) => "//" + body
    case Block(body) => "/*" + (body + "*/")
    case Slash => "/"
    case Regex(items, flags) => "/" + (PrintItems(items) + ("/" + flags))
    case Template(parts) => "`" + PrintParts(parts)
  }

  function Print(code: Code): string {
    match code
    case End => ""
    case More(head, tail) => PrintToken(head) + Print(tail)
  }

  function PrintParts(parts: Parts): string {
    match parts
    case Close => "`"
    case Text(item, rest) => PrintItem(item) + PrintParts(rest)
    case Hole(code, rest) => "${" + (Print(code) + ("}" + PrintParts(rest)))
  }

  function PrintSource(f: Source): string { f.hashbang + Print(f.code) }

  // ---- where the comments and the literals are ----

  function TokenComments(k: Token, at: nat): seq<Span> {
    match k
    case Line(_) => [(at, at + |PrintToken(k)|)]
    case Block(_) => [(at, at + |PrintToken(k)|)]
    case Template(parts) => PartsComments(parts, at + 1)
    case _ => []
  }

  function Comments(code: Code, at: nat): seq<Span> {
    match code
    case End => []
    case More(head, tail) => TokenComments(head, at) + Comments(tail, at + |PrintToken(head)|)
  }

  function PartsComments(parts: Parts, at: nat): seq<Span> {
    match parts
    case Close => []
    case Text(item, rest) => PartsComments(rest, at + |PrintItem(item)|)
    case Hole(code, rest) => Comments(code, at + 2) + PartsComments(rest, at + 2 + |Print(code)| + 1)
  }

  /** Strings, regex literals and the outermost template literals, in the order they end. */
  function TokenLiterals(k: Token, at: nat, top: bool): seq<Span> {
    match k
    case Str(_, _) => [(at, at + |PrintToken(k)|)]
    case Regex(_, _) => [(at, at + |PrintToken(k)|)]
    case Template(parts) => PartsLiterals(parts, at + 1) + (if top then [(at, at + |PrintToken(k)|)] else [])
    case _ => []
  }

  function Literals(code: Code, at: nat, top: bool): seq<Span> {
    match code
    case End => []
    case More(head, tail) => TokenLiterals(head, at, top) + Literals(tail, at + |PrintToken(head)|, top)
  }

  function PartsLiterals(parts: Parts, at: nat): seq<Span> {
    match parts
    case Close => []
    case Text(item, rest) => PartsLiterals(rest, at + |PrintItem(item)|)
    case Hole(code, rest) => Literals(code, at + 2, false) + PartsLiterals(rest, at + 2 + |Print(code)| + 1)
  }

  function SourceComments(f: Source): seq<Span> {
    (if f.hashbang == "" then [] else [(0, |f.hashbang|)]) + Comments(f.code, |f.hashbang|)
  }

  // ---- the lexical context a token leaves behind ----

  /** Code stands at the top of the source, or in an expression of a template with some braces open. */
  datatype Nest = Top | Inside(depth: nat)

  /** The words whose paren holds a condition. */
  const BEFORE_CONDITION: set<string> := {"if", "while", "for", "with"}

  datatype Context = Context(prev: Prev, word: string, parens: seq<bool>, nest: Nest)

  function AfterPunct(u: Charset, c: char, x: Context): Context {
    if c == ')' && x.parens != [] && x.parens[|x.parens| - 1] then
      Context(CondClose, "", x.parens[..|x.parens| - 1], x.nest)
    else
      var parens := if c == '(' then x.parens + [x.word in BEFORE_CONDITION]
                    else if c == ')' && x.parens != [] then x.parens[..|x.parens| - 1]
                    else x.parens;
      var nest := if c == '{' && x.nest.Inside? then Inside(x.nest.depth + 1)
                  else if c == '}' && x.nest.Inside? && x.nest.depth > 0 then Inside(x.nest.depth - 1)
                  else x.nest;
      if u.space(c) then Context(x.prev, x.word, parens, nest) else Context(Ch(c), "", parens, nest)
  }

  function AfterToken(u: Charset, k: Token, x: Context): (y: Context)
    ensures y.nest.Top? <==> x.nest.Top?
    decreases k
  {
    match k
    case Word(w) => if w == "" then x else Context(Ch(w[|w| - 1]), w, x.parens, x.nest)
    case Punct(c) => AfterPunct(u, c, x)
    case Str(q, _) => Context(Ch(q), "", x.parens, x.nest)
    case Line(_) => x
    case Block(_) => x
    case Slash => Context(Ch('/'), "", x.parens, x.nest)
    case Regex(_, _) => Context(Ch('/'), "", x.parens, x.nest)
    case Template(parts) => Context(Ch('`'), "", ParensAfter(u, parts, x.parens), x.nest)
  }

  function After(u: Charset, code: Code, x: Context): (y: Context)
    ensures y.nest.Top? <==> x.nest.Top?
    decreases code
  {
    match code
    case End => x
    case More(head, tail) => After(u, tail, AfterToken(u, head, x))
  }

  /** The context at the start of a `${...}` expression. */
  function Entering(parens: seq<bool>): Context { Context(Ch('{'), "", parens, Inside(0)) }

  function ParensAfter(u: Charset, parts: Parts, parens: seq<bool>): seq<bool>
    decreases parts
  {
    match parts
    case Close => parens
    case Text(_, rest) => ParensAfter(u, rest, parens)
    case Hole(code, rest) => ParensAfter(u, rest, After(u, code, Entering(parens)).parens)
  }

  // ---- when a printed token reads back as itself ----

  predicate StartsWith(post: string, c: char) { |post| > 0 && post[0] == c }

  predicate FitsString(q: char, xs: seq<Item>) {
    forall k :: 0 <= k < |xs| ==> xs[k].Plain? ==> xs[k].c != q && xs[k].c != '\n' && xs[k].c != '\\'
  }

  /** A regex body ends at the first slash outside a class. */
  predicate FitsRegex(xs: seq<Item>, inClass: bool) {
    if xs == [] then !inClass
    else if xs[0].Escaped? then FitsRegex(xs[1..], inClass)
    else
      var c := xs[0].c;
      c != '\n' && c != '\\' && (c == '/' ==> inClass)
      && FitsRegex(xs[1..], if c == '[' then true else if c == ']' then false else inClass)
  }

  /** A character of a name, and of the flags behind a regex literal. */
  predicate NameChar(u: Charset, c: char) { u.alnum(c) || c == '$' || c == '_' }

  predicate FlagLetter(u: Charset, c: char) { u.alnum(c) || c == '_' }

  /** Where an operand may start: at the beginning, behind an operator or an opening mark, behind the closing paren of a
      condition, behind a keyword that an operand follows. */
  predicate OperandNext(x: Context) {
    || x.prev == Nothing || x.prev == CondClose
    || (x.prev.Ch? && x.prev.c in {'(', ',', '=', ':', '[', '!', '&', '|', '?', '{', '}', ';', '+', '-', '*', '%', '<',
                                   '>', '~', '^'})
    || x.word in {"return", "typeof", "case", "do", "else", "in", "of", "new", "delete", "void", "throw", "yield",
                  "await"}
  }

  lemma RegexWhereOperand(x: Context)
    ensures RegexAllowed(x.prev, x.word) <==> OperandNext(x)
  {
    if x.prev.Ch? {
      assert x.prev.c in REGEX_BEFORE <==>
        x.prev.c in {'(', ',', '=', ':', '[', '!', '&', '|', '?', '{', '}', ';', '+', '-', '*', '%', '<', '>', '~',
                     '^'};
    }
  }

  /** A word is maximal; a line comment runs to a line break or to the end of the text; a slash is a division or opens
      a regex literal as its context says. */
  predicate FitsToken(u: Charset, k: Token, x: Context, post: string)
    decreases k
  {
    match k
    case Word(w) => w != "" && (forall j :: 0 <= j < |w| ==> NameChar(u, w[j])) && (post == "" || !NameChar(u, post[0]))
    case Punct(c) =>
      !NameChar(u, c) && c != '/' && c != '`' && c != '\'' && c != '"'
      && (c == '}' && x.nest.Inside? ==> x.nest.depth > 0)
    case Str(q, items) => (q == '\'' || q == '"') && FitsString(q, items)
    case Line(body) => '\n' !in body && (post == "" || post[0] == '\n')
    case Block(body) => forall j :: 0 <= j < |body| - 1 ==> !(body[j] == '*' && body[j + 1] == '/')
    case Slash => !OperandNext(x) && !StartsWith(post, '/') && !StartsWith(post, '*')
    case Regex(items, flags) =>
      OperandNext(x) && items != [] && items[0] != Plain('*') && FitsRegex(items, false)
      && (forall j :: 0 <= j < |flags| ==> FlagLetter(u, flags[j])) && (post == "" || !FlagLetter(u, post[0]))
    case Template(parts) => FitsParts(u, parts, x.parens, post)
  }

  predicate Fits(u: Charset, code: Code, x: Context, post: string)
    decreases code
  {
    match code
    case End => true
    case More(head, tail) => FitsToken(u, head, x, Print(tail) + post) && Fits(u, tail, AfterToken(u, head, x), post)
  }

  /** In a template text a backtick, a backslash and a dollar before a brace are escaped; an expression closes every
      brace it opens. */
  predicate FitsParts(u: Charset, parts: Parts, parens: seq<bool>, post: string)
    decreases parts
  {
    match parts
    case Close => true
    case Text(item, rest) =>
      (item.Plain? ==> item.c != '\\' && item.c != '`' && !(item.c == '$' && StartsWith(PrintParts(rest) + post, '{')))
      && FitsParts(u, rest, parens, post)
    case Hole(code, rest) =>
      Fits(u, code, Entering(parens), "}" + (PrintParts(rest) + post))
      && After(u, code, Entering(parens)).nest == Inside(0)
      && FitsParts(u, rest, After(u, code, Entering(parens)).parens, post)
  }

  const START: Context := Context(Nothing, "", [], Top)

  /** A source with this text behind it: its code fits, and a hashbang is a line of its own. */
  predicate FitsBefore(u: Charset, f: Source, post: string) {
    var code := Print(f.code) + post;
    Fits(u, f.code, START, post)
    && if f.hashbang == "" then !("#!" <= code)
       else "#!" <= f.hashbang && '\n' !in f.hashbang && (code == "" || code[0] == '\n')
  }

  predicate FitsSource(u: Charset, f: Source) { FitsBefore(u, f, "") }

  // ---- the scanner on one lexeme ----

  lemma Cut(t: string, i: nat, a: string, b: string)
    requires i <= |t| && t[i..] == a + b
    ensures i + |a| <= |t| && t[i + |a|..] == b && t[i..i + |a|] == a
    ensures forall k :: i <= k < i + |a| ==> t[k] == a[k - i]
    ensures b != "" ==> i + |a| < |t| && t[i + |a|] == b[0]
    ensures b == "" ==> i + |a| == |t|
  {
    assert |t[i..]| == |a| + |b|;
    assert forall k :: i <= k < |t| ==> t[k] == t[i..][k - i] == (a + b)[k - i];
  }

  lemma {:induction false} LineEndIs(t: string, j: nat, e: nat)
    requires j <= e <= |t| && (forall k :: j <= k < e ==> t[k] != '\n') && (e == |t| || t[e] == '\n')
    ensures LineEnd(t, j) == e
    decreases e - j
  {
    if j < e { LineEndIs(t, j + 1, e); }
  }

  lemma {:induction false} WordEndIs(u: Charset, t: string, j: nat, e: nat)
    requires j <= e <= |t| && (forall k :: j <= k < e ==> WordChar(u, t[k])) && (e == |t| || !WordChar(u, t[e]))
    ensures WordEnd(u, t, j) == e
    decreases e - j
  {
    if j < e { WordEndIs(u, t, j + 1, e); }
  }

  lemma {:induction false} FlagsEndIs(u: Charset, t: string, j: nat, e: nat)
    requires j <= e <= |t| && (forall k :: j <= k < e ==> FlagChar(u, t[k])) && (e == |t| || !FlagChar(u, t[e]))
    ensures FlagsEnd(u, t, j) == e
    decreases e - j
  {
    if j < e { FlagsEndIs(u, t, j + 1, e); }
  }

  lemma {:induction false} BlockEndIs(t: string, j: nat, e: nat)
    requires j <= e && e + 2 <= |t| && t[e] == '*' && t[e + 1] == '/'
    requires forall k :: j <= k < e ==> !(t[k] == '*' && t[k + 1] == '/')
    ensures BlockEnd(t, j) == e + 2
    decreases e - j
  {
    if j < e { BlockEndIs(t, j + 1, e); }
  }

  lemma {:induction false} StringEndIs(t: string, j: nat, q: char, xs: seq<Item>, post: string)
    requires j <= |t| && t[j..] == PrintItems(xs) + ([q] + post) && q != '\\' && FitsString(q, xs)
    ensures StringEnd(t, j, q) == j + |PrintItems(xs)|
    decreases xs
  {
    if xs == [] {
      Cut(t, j, "", [q] + post);
    } else {
      var p := PrintItem(xs[0]);
      assert t[j..] == p + (PrintItems(xs[1..]) + ([q] + post));
      Cut(t, j, p, PrintItems(xs[1..]) + ([q] + post));
      assert t[j] == p[0] && FitsString(q, xs[1..]);
      hide FitsString;
      StringEndIs(t, j + |p|, q, xs[1..], post);
    }
  }

  lemma {:induction false} RegexEndIs(t: string, j: nat, xs: seq<Item>, inClass: bool, post: string)
    requires j <= |t| && t[j..] == PrintItems(xs) + ("/" + post) && FitsRegex(xs, inClass)
    ensures RegexEnd(t, j, inClass) == j + |PrintItems(xs)|
    decreases xs
  {
    if xs == [] {
      Cut(t, j, "", "/" + post);
    } else {
      var p := PrintItem(xs[0]);
      assert t[j..] == p + (PrintItems(xs[1..]) + ("/" + post));
      Cut(t, j, p, PrintItems(xs[1..]) + ("/" + post));
      assert t[j] == p[0];
      var inClass' := if xs[0].Escaped? then inClass else if xs[0].c == '[' then true
                      else if xs[0].c == ']' then false else inClass;
      RegexEndIs(t, j + |p|, xs[1..], inClass', post);
    }
  }

  // ---- the scanner on a token, a list of tokens, the parts of a template ----

  /** A state in code mode sees this context. */
  predicate Sees(s: State, x: Context) {
    WellStacked(s.stack) && s.prev == x.prev && s.word == x.word && s.parens == x.parens
    && if x.nest.Top? then s.stack == [] else s.stack != [] && s.stack[|s.stack| - 1] == Expr(x.nest.depth)
  }

  function WithNest(stack: seq<Frame>, nest: Nest): seq<Frame> {
    if nest.Inside? && stack != [] then stack[|stack| - 1 := Expr(nest.depth)] else stack
  }

  /** The state `n` characters on, in context `y`, with these comments and literals more. */
  function Moved(s: State, n: nat, y: Context, comments: seq<Span>, lits: seq<Span>): State {
    State(s.i + n, y.prev, y.word, y.parens, WithNest(s.stack, y.nest), s.spans + comments, s.lits + lits)
  }

  lemma MovedTwice(s: State, x: Context, m: nat, y: Context, cs: seq<Span>, ls: seq<Span>,
                   n: nat, z: Context, ds: seq<Span>, ms: seq<Span>)
    requires Sees(s, x) && (y.nest.Top? <==> x.nest.Top?) && (z.nest.Top? <==> x.nest.Top?)
    ensures Sees(Moved(s, m, y, cs, ls), y)
    ensures Moved(Moved(s, m, y, cs, ls), n, z, ds, ms) == Moved(s, m + n, z, cs + ds, ls + ms)
  {
    assert s.spans + cs + ds == s.spans + (cs + ds);
    assert s.lits + ls + ms == s.lits + (ls + ms);
  }

  lemma ScanWordToken(u: Charset, t: string, s: State, k: Token, x: Context, post: string)
    requires Sane(u) && s.i <= |t| && Sees(s, x) && k.Word?
    requires t[s.i..] == PrintToken(k) + post && FitsToken(u, k, x, post)
    ensures s.i < |t| && Step(u, t, s) == Moved(s, |PrintToken(k)|, AfterToken(u, k, x), [], [])
  {
    Cut(t, s.i, k.w, post);
    WordEndIs(u, t, s.i, s.i + |k.w|);
  }

  lemma ScanPunct(u: Charset, t: string, s: State, k: Token, x: Context, post: string)
    requires s.i <= |t| && Sees(s, x) && k.Punct?
    requires t[s.i..] == PrintToken(k) + post && FitsToken(u, k, x, post)
    ensures s.i < |t| && Step(u, t, s) == Moved(s, |PrintToken(k)|, AfterToken(u, k, x), [], [])
  {
    hide RegexAllowed, OperandNext;
    Cut(t, s.i, [k.c], post);
    assert Step(u, t, s) == PunctStep(u, k.c, s);
  }

  lemma ScanStr(u: Charset, t: string, s: State, k: Token, x: Context, post: string)
    requires s.i <= |t| && Sees(s, x) && k.Str?
    requires t[s.i..] == PrintToken(k) + post && FitsToken(u, k, x, post)
    ensures s.i < |t|
    ensures Step(u, t, s)
         == Moved(s, |PrintToken(k)|, AfterToken(u, k, x), [], TokenLiterals(k, s.i, x.nest.Top?))
  {
    hide RegexAllowed, OperandNext;
    var body := PrintItems(k.items);
    assert t[s.i..] == [k.q] + (body + ([k.q] + post));
    Cut(t, s.i, [k.q], body + ([k.q] + post));
    StringEndIs(t, s.i + 1, k.q, k.items, post);
  }

  lemma ScanComment(u: Charset, t: string, s: State, k: Token, x: Context, post: string)
    requires s.i <= |t| && Sees(s, x) && (k.Line? || k.Block?)
    requires t[s.i..] == PrintToken(k) + post && FitsToken(u, k, x, post)
    ensures s.i < |t|
    ensures Step(u, t, s) == Moved(s, |PrintToken(k)|, AfterToken(u, k, x), TokenComments(k, s.i), [])
  {
    hide RegexAllowed, OperandNext;
    var p := PrintToken(k);
    Cut(t, s.i, p, post);
    assert t[s.i] == p[0] && t[s.i + 1] == p[1];
    assert forall j :: 0 <= j < |k.body| ==> p[2 + j] == k.body[j];
    if k.Line? {
      LineEndIs(t, s.i, s.i + |p|);
    } else {
      var e := s.i + 2 + |k.body|;
      assert p[2 + |k.body|] == '*' && p[3 + |k.body|] == '/';
      forall j | s.i + 2 <= j < e ensures !(t[j] == '*' && t[j + 1] == '/') {
        assert t[j] == k.body[j - s.i - 2];
        assert j + 1 < e ==> t[j + 1] == k.body[j - s.i - 1];
      }
      BlockEndIs(t, s.i + 2, e);
    }
  }

  lemma ScanSlash(u: Charset, t: string, s: State, k: Token, x: Context, post: string)
    requires Sane(u) && s.i <= |t| && Sees(s, x) && k.Slash?
    requires t[s.i..] == PrintToken(k) + post && FitsToken(u, k, x, post)
    ensures s.i < |t| && Step(u, t, s) == Moved(s, |PrintToken(k)|, AfterToken(u, k, x), [], [])
  {
    RegexWhereOperand(x);
    hide RegexAllowed, OperandNext;
    Cut(t, s.i, "/", post);
    assert Step(u, t, s) == PunctStep(u, '/', s);
  }

  lemma FirstItem(xs: seq<Item>)
    requires xs != [] && xs[0] != Plain('*') && FitsRegex(xs, false)
    ensures PrintItems(xs) != "" && PrintItems(xs)[0] != '*' && PrintItems(xs)[0] != '/'
  {
    assert PrintItems(xs)[0] == PrintItem(xs[0])[0];
  }

  lemma RegexTokenEndIs(u: Charset, t: string, i: nat, items: seq<Item>, flags: string, post: string)
    requires i <= |t| && t[i..] == "/" + (PrintItems(items) + ("/" + (flags + post)))
    requires FitsRegex(items, false) && (forall j :: 0 <= j < |flags| ==> FlagChar(u, flags[j]))
    requires post == "" || !FlagChar(u, post[0])
    requires items != [] && items[0] != Plain('*')
    ensures i + 1 < |t| && t[i] == '/' && t[i + 1] != '/' && t[i + 1] != '*'
    ensures FlagsEnd(u, t, RegexEnd(t, i + 1, false) + 1) == i + 1 + |PrintItems(items)| + 1 + |flags| <= |t|
  {
    hide FitsRegex, PrintItems, RegexEnd, FlagsEnd, FlagChar;
    FirstItem(items);
    var body := PrintItems(items);
    var e := i + 1 + |body|;
    Cut(t, i, "/", body + ("/" + (flags + post)));
    RegexEndIs(t, i + 1, items, false, flags + post);
    assert t[i + 1] == body[0] && t[e + 1..] == flags + post by {
      Cut(t, i + 1, body, "/" + (flags + post));
      Cut(t, e, "/", flags + post);
    }
    Cut(t, e + 1, flags, post);
    FlagsEndIs(u, t, e + 1, e + 1 + |flags|);
  }

  lemma ScanRegexToken(u: Charset, t: string, s: State, k: Token, x: Context, post: string)
    requires s.i <= |t| && Sees(s, x) && k.Regex?
    requires t[s.i..] == PrintToken(k) + post && FitsToken(u, k, x, post)
    ensures s.i < |t|
    ensures Step(u, t, s)
         == Moved(s, |PrintToken(k)|, AfterToken(u, k, x), [], TokenLiterals(k, s.i, x.nest.Top?))
  {
    RegexWhereOperand(x);
    hide RegexAllowed, OperandNext, FitsRegex, RegexEnd, FlagsEnd, PrintItems, AfterPunct;
    assert t[s.i..] == "/" + (PrintItems(k.items) + ("/" + (k.flags + post)));
    RegexTokenEndIs(u, t, s.i, k.items, k.flags, post);
  }

  /** Scanning on from the start of a printed token is scanning on from behind it. */
  lemma {:induction false} ScanToken(u: Charset, t: string, s: State, k: Token, x: Context, post: string)
    requires Sane(u) && s.i <= |t| && Sees(s, x)
    requires t[s.i..] == PrintToken(k) + post && FitsToken(u, k, x, post)
    ensures Run(u, t, s) == Run(u, t, Moved(s, |PrintToken(k)|, AfterToken(u, k, x), TokenComments(k, s.i),
                                            TokenLiterals(k, s.i, x.nest.Top?)))
    decreases k
  {
    match k
    case Word(_) => ScanWordToken(u, t, s, k, x, post);
    case Punct(_) => ScanPunct(u, t, s, k, x, post);
    case Str(_, _) => ScanStr(u, t, s, k, x, post);
    case Line(_) => ScanComment(u, t, s, k, x, post);
    case Block(_) => ScanComment(u, t, s, k, x, post);
    case Slash => ScanSlash(u, t, s, k, x, post);
    case Regex(_, _) => ScanRegexToken(u, t, s, k, x, post);
    case Template(parts) => ScanTemplate(u, t, s, parts, x, post);
  }

  /** What the loop does at the marks of a template literal. */
  lemma TemplateMarks(u: Charset, t: string, s: State, post: string)
    requires Sane(u) && s.i <= |t|
    ensures !InTemplate(s.stack) && t[s.i..] == "`" + post
      ==> s.i < |t| && t[s.i + 1..] == post && Step(u, t, s) == s.(i := s.i + 1, stack := s.stack + [Tpl(s.i)])
    ensures InTemplate(s.stack) && t[s.i..] == "${" + post
      ==> s.i < |t| && s.i + 2 <= |t| && t[s.i + 2..] == post
          && Step(u, t, s) == s.(i := s.i + 2, prev := Ch('{'), word := "", stack := s.stack + [Expr(0)])
    ensures s.stack != [] && s.stack[|s.stack| - 1] == Expr(0) && t[s.i..] == "}" + post
      ==> s.i < |t| && t[s.i + 1..] == post
          && Step(u, t, s) == s.(i := s.i + 1, prev := Nothing, word := "", stack := s.stack[..|s.stack| - 1])
  {
    hide RegexAllowed, OperandNext;
    if t[s.i..] == "`" + post {
      Cut(t, s.i, "`", post);
    } else if t[s.i..] == "${" + post {
      Cut(t, s.i, "${", post);
    } else if t[s.i..] == "}" + post {
      Cut(t, s.i, "}", post);
    }
  }

  lemma TemplateItem(u: Charset, t: string, s: State, item: Item, post: string)
    requires s.i <= |t| && InTemplate(s.stack) && t[s.i..] == PrintItem(item) + post
    requires item.Plain? ==> item.c != '\\' && item.c != '`' && !(item.c == '$' && StartsWith(post, '{'))
    ensures s.i < |t| && s.i + |PrintItem(item)| <= |t| && t[s.i + |PrintItem(item)|..] == post
    ensures Step(u, t, s) == s.(i := s.i + |PrintItem(item)|)
  {
    hide CodeStep;
    Cut(t, s.i, PrintItem(item), post);
    assert t[s.i] == PrintItem(item)[0];
  }

  lemma TemplateClose(u: Charset, t: string, s: State, post: string)
    requires s.i <= |t| && InTemplate(s.stack) && t[s.i..] == "`" + post
    ensures s.i < |t|
    ensures var k := |s.stack| - 1;
            Step(u, t, s) == State(s.i + 1, Ch('`'), "", s.parens, s.stack[..k], s.spans + [],
                                   s.lits + ([] + (if k == 0 then [(s.stack[0].start, s.i + 1)] else [])))
  {
    hide CodeStep;
    Cut(t, s.i, "`", post);
    assert s.spans + [] == s.spans;
    assert s.lits + ([] + []) == s.lits;
  }

  lemma RunStep(u: Charset, t: string, s: State)
    requires s.i < |t|
    ensures Run(u, t, s) == Run(u, t, Step(u, t, s))
  {
    hide Step;
  }

  lemma {:induction false} ScanTemplate(u: Charset, t: string, s: State, parts: Parts, x: Context, post: string)
    requires Sane(u) && s.i <= |t| && Sees(s, x)
    requires t[s.i..] == PrintToken(Template(parts)) + post && FitsParts(u, parts, x.parens, post)
    ensures var k := Template(parts);
            Run(u, t, s) == Run(u, t, Moved(s, |PrintToken(k)|, AfterToken(u, k, x), TokenComments(k, s.i),
                                            TokenLiterals(k, s.i, x.nest.Top?)))
    decreases parts, 1
  {
    hide Sane, Step, Run, FitsParts, PrintParts, PartsComments, PartsLiterals, ParensAfter;
    assert t[s.i..] == "`" + (PrintParts(parts) + post);
    TemplateMarks(u, t, s, PrintParts(parts) + post);
    RunStep(u, t, s);
    var s1 := s.(i := s.i + 1, stack := s.stack + [Tpl(s.i)]);
    TemplateMoved(u, s, parts, x);
    ScanParts(u, t, s1, parts, post);
  }

  lemma TemplateMoved(u: Charset, s: State, parts: Parts, x: Context)
    requires Sees(s, x)
    ensures var k, s1 := Template(parts), s.(i := s.i + 1, stack := s.stack + [Tpl(s.i)]);
            InTemplate(s1.stack) && WellStacked(s1.stack)
            && Closed(u, s1, parts) == Moved(s, |PrintToken(k)|, AfterToken(u, k, x), TokenComments(k, s.i),
                                             TokenLiterals(k, s.i, x.nest.Top?))
  {
    hide PrintParts, PartsComments, PartsLiterals, ParensAfter;
    assert (s.stack + [Tpl(s.i)])[..|s.stack|] == s.stack;
    assert WithNest(s.stack, x.nest) == s.stack;
  }

  /** The state behind a template literal whose inside starts at `s`. */
  function Closed(u: Charset, s: State, parts: Parts): State
    requires InTemplate(s.stack) && WellStacked(s.stack)
  {
    var k, e := |s.stack| - 1, s.i + |PrintParts(parts)|;
    State(e, Ch('`'), "", ParensAfter(u, parts, s.parens), s.stack[..k], s.spans + PartsComments(parts, s.i),
          s.lits + (PartsLiterals(parts, s.i) + (if k == 0 then [(s.stack[0].start, e)] else [])))
  }

  lemma {:induction false} ScanParts(u: Charset, t: string, s: State, parts: Parts, post: string)
    requires Sane(u) && s.i <= |t| && InTemplate(s.stack) && WellStacked(s.stack)
    requires t[s.i..] == PrintParts(parts) + post && FitsParts(u, parts, s.parens, post)
    ensures Run(u, t, s) == Run(u, t, Closed(u, s, parts))
    decreases parts, 0
  {
    hide Sane, Step, Run, Fits, Print, Comments, Literals, After, ParensAfter, PartsComments, PartsLiterals;
    match parts
    case Close =>
      CloseClosed(u, s);
      TemplateClose(u, t, s, post);
      RunStep(u, t, s);
    case Text(item, rest) =>
      var p := PrintItem(item);
      assert t[s.i..] == p + (PrintParts(rest) + post);
      TemplateItem(u, t, s, item, PrintParts(rest) + post);
      RunStep(u, t, s);
      TextClosed(u, s, item, rest);
      ScanParts(u, t, s.(i := s.i + |p|), rest, post);
    case Hole(code, rest) =>
      var after := "}" + (PrintParts(rest) + post);
      assert t[s.i..] == "${" + (Print(code) + after);
      TemplateMarks(u, t, s, Print(code) + after);
      RunStep(u, t, s);
      var s1 := s.(i := s.i + 2, prev := Ch('{'), word := "", stack := s.stack + [Expr(0)]);
      var s3 := ScanHole(u, t, s1, code, PrintParts(rest) + post);
      assert s1.stack[..|s.stack|] == s.stack;
      HoleClosed(u, s, code, rest, s3);
      ScanParts(u, t, s3, rest, post);
  }

  lemma CloseClosed(u: Charset, s: State)
    requires InTemplate(s.stack) && WellStacked(s.stack)
    ensures var k := |s.stack| - 1;
            Closed(u, s, Close) == State(s.i + 1, Ch('`'), "", s.parens, s.stack[..k], s.spans + [],
                                         s.lits + ([] + (if k == 0 then [(s.stack[0].start, s.i + 1)] else [])))
  {}

  lemma TextClosed(u: Charset, s: State, item: Item, rest: Parts)
    requires InTemplate(s.stack) && WellStacked(s.stack)
    ensures Closed(u, s, Text(item, rest)) == Closed(u, s.(i := s.i + |PrintItem(item)|), rest)
  {}

  lemma HoleClosed(u: Charset, s: State, code: Code, rest: Parts, r: State)
    requires InTemplate(s.stack) && WellStacked(s.stack)
    requires r == State(s.i + 2 + |Print(code)| + 1, Nothing, "", After(u, code, Entering(s.parens)).parens, s.stack,
                        s.spans + Comments(code, s.i + 2), s.lits + Literals(code, s.i + 2, false))
    ensures Closed(u, s, Hole(code, rest)) == Closed(u, r, rest)
  {
    hide Print, Comments, Literals, After;
    HoleAdds(s.spans, Comments(code, s.i + 2), PartsComments(rest, r.i), []);
    HoleAdds(s.lits, Literals(code, s.i + 2, false), PartsLiterals(rest, r.i),
             if |s.stack| == 1 then [(s.stack[0].start, r.i + |PrintParts(rest)|)] else []);
  }

  /** The code of an expression and the brace that closes it. */
  lemma {:induction false} ScanHole(u: Charset, t: string, s: State, code: Code, post: string) returns (r: State)
    requires Sane(u) && s.i <= |t| && s.stack != [] && Sees(s, Entering(s.parens))
    requires t[s.i..] == Print(code) + ("}" + post) && Fits(u, code, Entering(s.parens), "}" + post)
    requires After(u, code, Entering(s.parens)).nest == Inside(0)
    ensures r == State(s.i + |Print(code)| + 1, Nothing, "", After(u, code, Entering(s.parens)).parens,
                       s.stack[..|s.stack| - 1], s.spans + Comments(code, s.i), s.lits + Literals(code, s.i, false))
    ensures r.i <= |t| && t[r.i..] == post && Run(u, t, s) == Run(u, t, r)
    decreases code, 1
  {
    hide Sane, Step, Run, Fits, Print, Comments, Literals, After;
    var x := Entering(s.parens);
    ScanCode(u, t, s, code, x, "}" + post);
    var s2 := Moved(s, |Print(code)|, After(u, code, x), Comments(code, s.i), Literals(code, s.i, false));
    assert s2.stack == s.stack;
    Cut(t, s.i, Print(code), "}" + post);
    TemplateMarks(u, t, s2, post);
    RunStep(u, t, s2);
    r := s2.(i := s2.i + 1, prev := Nothing, word := "", stack := s.stack[..|s.stack| - 1]);
  }

  lemma HoleAdds(a: seq<Span>, b: seq<Span>, c: seq<Span>, d: seq<Span>)
    ensures a + b + (c + d) == a + ((b + c) + d) && a + b + c == a + (b + c)
  {}

  lemma {:induction false} ScanCode(u: Charset, t: string, s: State, code: Code, x: Context, post: string)
    requires Sane(u) && s.i <= |t| && Sees(s, x)
    requires t[s.i..] == Print(code) + post && Fits(u, code, x, post)
    ensures Run(u, t, s) == Run(u, t, Moved(s, |Print(code)|, After(u, code, x), Comments(code, s.i),
                                            Literals(code, s.i, x.nest.Top?)))
    decreases code, 0
  {
    hide Step, Run, FitsToken, AfterToken, TokenComments, TokenLiterals, PrintToken;
    match code
    case End =>
      assert Moved(s, 0, x, [], []) == s;
    case More(head, tail) =>
      var p := PrintToken(head);
      assert t[s.i..] == p + (Print(tail) + post);
      Cut(t, s.i, p, Print(tail) + post);
      ScanToken(u, t, s, head, x, Print(tail) + post);
      var y := AfterToken(u, head, x);
      var cs, ls := TokenComments(head, s.i), TokenLiterals(head, s.i, x.nest.Top?);
      var s1 := Moved(s, |p|, y, cs, ls);
      var z := After(u, tail, y);
      MovedTwice(s, x, |p|, y, cs, ls, |Print(tail)|, z, Comments(tail, s1.i), Literals(tail, s1.i, x.nest.Top?));
      ScanCode(u, t, s1, tail, y, post);
  }

  /** The state behind a printed source. */
  function Behind(u: Charset, f: Source): State {
    var x := After(u, f.code, START);
    State(|PrintSource(f)|, x.prev, x.word, x.parens, [], SourceComments(f), Literals(f.code, |f.hashbang|, true))
  }

  lemma ScanSource(u: Charset, f: Source, post: string)
    requires Sane(u) && FitsBefore(u, f, post)
    ensures var t := PrintSource(f) + post; Run(u, t, Start(t)) == Run(u, t, Behind(u, f))
  {
    hide Step, Fits, Print, Comments, Literals, After;
    var t := PrintSource(f) + post;
    var i := |f.hashbang|;
    assert t[i..] == Print(f.code) + post;
    if f.hashbang == "" {
      assert t == Print(f.code) + post;
    } else {
      assert forall k :: 0 <= k < i ==> t[k] == f.hashbang[k];
      LineEndIs(t, 0, i);
    }
    var s := State(i, Nothing, "", [], [], if i == 0 then [] else [(0, i)], []);
    assert Start(t) == s;
    ScanCode(u, t, s, f.code, START, post);
    assert s.lits + Literals(f.code, i, true) == Literals(f.code, i, true);
    assert Moved(s, |Print(f.code)|, After(u, f.code, START), Comments(f.code, i), Literals(f.code, i, true))
        == Behind(u, f);
  }

  /** The scanner inverts the printer: on the text of any source that fits, the comment spans are exactly the places of
      its comment tokens (and its hashbang line), the literal spans those of its literals. */
  lemma {:induction false} ScanInvertsPrint(u: Charset, f: Source)
    requires Sane(u) && FitsSource(u, f)
    ensures Scan(u, PrintSource(f)) == (SourceComments(f), Literals(f.code, |f.hashbang|, true))
  {
    assert Print(f.code) + "" == Print(f.code) && PrintSource(f) + "" == PrintSource(f);
    hide Step, Fits, Print, Comments, Literals, After;
    ScanSource(u, f, "");
    assert Run(u, PrintSource(f), Behind(u, f)) == Behind(u, f);
  }

  // ---- a source that breaks off ----

  lemma {:induction false} BlockOpen(t: string, j: nat)
    requires j <= |t| && forall k :: j <= k < |t| - 1 ==> !(t[k] == '*' && t[k + 1] == '/')
    ensures BlockEnd(t, j) == |t|
    decreases |t| - j
  {
    if j + 1 < |t| { BlockOpen(t, j + 1); }
  }

  lemma CommentToEnd(u: Charset, t: string, s: State, body: string)
    requires s.i <= |t| && s.stack == [] && t[s.i..] == "/*" + body
    requires forall k :: 0 <= k < |body| - 1 ==> !(body[k] == '*' && body[k + 1] == '/')
    ensures Run(u, t, s) == s.(i := |t|, spans := s.spans + [(s.i, |t|)])
  {
    hide RegexAllowed;
    var i := s.i;
    Cut(t, i, "/*" + body, "");
    forall k | i + 2 <= k < |t| - 1 ensures !(t[k] == '*' && t[k + 1] == '/') {
      assert t[k] == body[k - i - 2] && t[k + 1] == body[k - i - 1];
    }
    BlockOpen(t, i + 2);
    assert t[i] == '/' && t[i + 1] == '*';
    assert Step(u, t, s) == s.(i := |t|, spans := s.spans + [(i, |t|)]);
    hide Step, BlockEnd;
  }

  /** A comment that nothing closes is a comment to the end. */
  lemma {:induction false} OpenComment(u: Charset, f: Source, body: string)
    requires Sane(u) && FitsBefore(u, f, "/*" + body)
    requires forall k :: 0 <= k < |body| - 1 ==> !(body[k] == '*' && body[k + 1] == '/')
    ensures var t := PrintSource(f) + ("/*" + body);
            Scan(u, t) == (SourceComments(f) + [(|PrintSource(f)|, |t|)], Literals(f.code, |f.hashbang|, true))
  {
    var t := PrintSource(f) + ("/*" + body);
    ScanSource(u, f, "/*" + body);
    hide FitsBefore, Print, Comments, Literals, After, PrintSource, SourceComments, Step, Run;
    CommentToEnd(u, t, Behind(u, f), body);
  }

  lemma {:induction false} StringOpen(t: string, j: nat, q: char, xs: seq<Item>)
    requires j <= |t| && t[j..] == PrintItems(xs) && q != '\\' && FitsString(q, xs)
    ensures StringEnd(t, j, q) == |t|
    decreases xs
  {
    if xs != [] {
      var p := PrintItem(xs[0]);
      Cut(t, j, p, PrintItems(xs[1..]));
      assert t[j] == p[0] && FitsString(q, xs[1..]);
      hide FitsString;
      StringOpen(t, j + |p|, q, xs[1..]);
    }
  }

  lemma StringToEnd(u: Charset, t: string, s: State, q: char, xs: seq<Item>)
    requires s.i <= |t| && s.stack == [] && t[s.i..] == [q] + PrintItems(xs)
    requires (q == '\'' || q == '"') && FitsString(q, xs)
    ensures var e := Run(u, t, s); e.spans == s.spans && e.lits == s.lits + [(s.i, |t|)] && e.stack == []
  {
    hide RegexAllowed, FitsString;
    Cut(t, s.i, [q], PrintItems(xs));
    StringOpen(t, s.i + 1, q, xs);
    assert Step(u, t, s) == s.(i := |t| + 1, prev := Ch(q), word := "", lits := s.lits + [(s.i, |t|)]);
    hide Step, StringEnd, PrintItems;
  }

  /** A string that nothing closes is a literal to the end. */
  lemma {:induction false} OpenString(u: Charset, f: Source, q: char, xs: seq<Item>)
    requires Sane(u) && FitsBefore(u, f, [q] + PrintItems(xs)) && (q == '\'' || q == '"') && FitsString(q, xs)
    ensures var t := PrintSource(f) + ([q] + PrintItems(xs));
            Scan(u, t) == (SourceComments(f), Literals(f.code, |f.hashbang|, true) + [(|PrintSource(f)|, |t|)])
  {
    var t := PrintSource(f) + ([q] + PrintItems(xs));
    ScanSource(u, f, [q] + PrintItems(xs));
    hide FitsBefore, Print, Comments, Literals, After, PrintSource, SourceComments, PrintItems, Step, Run, FitsString;
    StringToEnd(u, t, Behind(u, f), q, xs);
  }

  /** Text that neither closes a template literal nor opens an expression in it. */
  predicate FitsText(xs: seq<Item>) {
    xs == []
    || ((xs[0].Plain? ==> xs[0].c != '\\' && xs[0].c != '`'
                          && !(xs[0].c == '$' && StartsWith(PrintItems(xs[1..]), '{')))
        && FitsText(xs[1..]))
  }

  lemma {:induction false} TextOpen(u: Charset, t: string, s: State, xs: seq<Item>)
    requires s.i <= |t| && InTemplate(s.stack) && t[s.i..] == PrintItems(xs) && FitsText(xs)
    ensures Run(u, t, s) == s.(i := |t|)
    decreases xs
  {
    if xs != [] {
      var p := PrintItem(xs[0]);
      TemplateItem(u, t, s, xs[0], PrintItems(xs[1..]));
      hide Step, PrintItems, PrintItem;
      TextOpen(u, t, s.(i := s.i + |p|), xs[1..]);
    }
  }

  lemma TemplateToEnd(u: Charset, t: string, s: State, xs: seq<Item>)
    requires Sane(u) && s.i <= |t| && s.stack == [] && t[s.i..] == "`" + PrintItems(xs) && FitsText(xs)
    ensures Run(u, t, s) == s.(i := |t|, stack := [Tpl(s.i)])
  {
    hide FitsText, PrintItems, Step;
    TemplateMarks(u, t, s, PrintItems(xs));
    assert s.stack + [Tpl(s.i)] == [Tpl(s.i)];
    TextOpen(u, t, s.(i := s.i + 1, stack := [Tpl(s.i)]), xs);
  }

  /** A template literal that nothing closes is a literal to the end. */
  lemma {:induction false} OpenTemplate(u: Charset, f: Source, xs: seq<Item>)
    requires Sane(u) && FitsBefore(u, f, "`" + PrintItems(xs)) && FitsText(xs)
    ensures var t := PrintSource(f) + ("`" + PrintItems(xs));
            Scan(u, t) == (SourceComments(f), Literals(f.code, |f.hashbang|, true) + [(|PrintSource(f)|, |t|)])
  {
    var t := PrintSource(f) + ("`" + PrintItems(xs));
    ScanSource(u, f, "`" + PrintItems(xs));
    hide FitsBefore, Print, Comments, Literals, After, PrintSource, SourceComments, FitsText, PrintItems, Step, Run;
    TemplateToEnd(u, t, Behind(u, f), xs);
  }
}
