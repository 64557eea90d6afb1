/** The machine footer of a card-move note in scripts/kartya-es-ertesites.py.

    A note is free text, which may hold anything a card field ever held, and ends with one line that says who moved
    which fields and when. The next move reads that line back with a pattern and takes the last match. */
module CardNote {
  import opened Options
  import opened Lines
  import opened Strings
  import Decimals

  // ---- the writer ----

  function Unbarred(s: string): string {
    if s == "" then "" else [if s[0] == '|' then '/' else s[0]] + Unbarred(s[1..])
  }

  function WordEnd(s: string, j: nat): (e: nat)
    requires j <= |s|
    ensures j <= e <= |s| && (forall k :: j <= k < e ==> !PySpace(s[k])) && (e < |s| ==> PySpace(s[e]))
    decreases |s| - j
  {
    if j < |s| && !PySpace(s[j]) then WordEnd(s, j + 1) else j
  }

  /** The runs of other characters between white space. */
  function Words(s: string): seq<string>
    decreases |s|
  {
    if s == "" then []
    else if PySpace(s[0]) then Words(s[1..])
    else [s[..WordEnd(s, 0)]] + Words(s[WordEnd(s, 0)..])
  }

  function JoinWith(sep: string, parts: seq<string>): string {
    if parts == [] then "" else if |parts| == 1 then parts[0] else parts[0] + (sep + JoinWith(sep, parts[1..]))
  }

  const NOBODY: string := "(ismeretlen)"

  /** The mover's name as the footer gives it. */
  function Mover(author: string): string { JoinWith(" ", Words(Unbarred(if author == "" then NOBODY else author))) }

  const LEAD: string := "-- mozgato: "
  const FIELDS: string := " | mezok: "
  const STAMP: string := " | ts: "

  function Footer(author: string, fields: seq<string>, now: nat): string {
    LEAD + (Mover(author) + (FIELDS + (JoinWith(",", fields) + (STAMP + Decimals.Print(now)))))
  }

  // ---- the pattern ----

  datatype Match = Match(mover: string, fields: string, ts: string)

  /** One or more digits up to the end of the line, for the given notion of digit. */
  predicate DigitsToEnd(digit: char -> bool, line: string, j: nat) {
    j < |line| && forall k :: j <= k < |line| ==> digit(line[k])
  }

  /** The first place from `j` on where the stamp and digits end the line. */
  function StampFrom(digit: char -> bool, line: string, j: nat): (r: Option<nat>)
    ensures r.Some? ==> j <= r.value && r.value + |STAMP| <= |line|
    decreases |line| - j
  {
    if j >= |line| then None
    else if OccursAt(line, j, STAMP) && DigitsToEnd(digit, line, j + |STAMP|) then Some(j)
    else StampFrom(digit, line, j + 1)
  }

  /** The shortest mover that ends at `i` or later and lets the rest of the line match. */
  function MatchFrom(digit: char -> bool, line: string, i: nat): Option<Match>
    requires |LEAD| <= i
    decreases |line| - i
  {
    if i >= |line| then None
    else
      var j := if OccursAt(line, i, FIELDS) then StampFrom(digit, line, i + |FIELDS|) else None;
      if j.Some? then Some(Match(line[|LEAD|..i], line[i + |FIELDS|..j.value], line[j.value + |STAMP|..]))
      else MatchFrom(digit, line, i + 1)
  }

  function MatchLine(digit: char -> bool, line: string): Option<Match> {
    if OccursAt(line, 0, LEAD) then MatchFrom(digit, line, |LEAD|) else None
  }

  /** All matches, a line at a time: the pattern is anchored at both ends of a line and cannot leave it. */
  function FindAll(digit: char -> bool, lines: seq<string>): seq<Match> {
    if lines == [] then []
    else
      var m := MatchLine(digit, lines[|lines| - 1]);
      FindAll(digit, lines[..|lines| - 1]) + if m.Some? then [m.value] else []
  }

  // ---- what the next move makes of it ----

  datatype History =
    | NoFooter(recent: bool)
    | SomeoneElse(who: string, fields: string)
    | Known(who: string, fields: string)

  /** The report on the last note, `age` seconds old, to the author of the next move. */
  function Report(digit: char -> bool, lower: string -> string, note: string, age: int, author: string): History {
    var found := FindAll(digit, Split(note));
    if found == [] then NoFooter(age < 1800)
    else
      var last := found[|found| - 1];
      var who := Trim(PySpace, last.mover);
      if age < 1800 && lower(who) != lower(author) then SomeoneElse(who, last.fields) else Known(who, last.fields)
  }

  // ---- the name ----

  predicate Barless(s: string) { forall k :: 0 <= k < |s| ==> s[k] != '|' }

  /** No white space but single spaces between other characters. */
  predicate Tidy(s: string) {
    && (forall k :: 0 <= k < |s| && PySpace(s[k]) ==> s[k] == ' ')
    && (s != "" ==> !PySpace(s[0]) && !PySpace(s[|s| - 1]))
    && (forall k :: 0 < k < |s| ==> !PySpace(s[k - 1]) || !PySpace(s[k]))
  }

  predicate Word(w: string) { w != "" && (forall k :: 0 <= k < |w| ==> !PySpace(w[k])) && Barless(w) }

  lemma {:induction false} UnbarredIs(s: string)
    ensures Barless(Unbarred(s)) && |Unbarred(s)| == |s|
  {
    if s != "" { UnbarredIs(s[1..]); }
  }

  lemma {:induction false} WordsAre(s: string)
    requires Barless(s)
    ensures forall k :: 0 <= k < |Words(s)| ==> Word(Words(s)[k])
    decreases |s|
  {
    if s != "" { WordsAre(if PySpace(s[0]) then s[1..] else s[WordEnd(s, 0)..]); }
  }

  lemma {:induction false} JoinedWords(words: seq<string>)
    requires forall k :: 0 <= k < |words| ==> Word(words[k])
    ensures var s := JoinWith(" ", words); Barless(s) && Tidy(s) && (words != [] ==> s != "")
  {
    if |words| > 1 { JoinedWords(words[1..]); }
  }

  /** The mover's name has no bar and no white space but single inner spaces. */
  lemma {:induction false} MoverIsTidy(author: string)
    ensures Barless(Mover(author)) && Tidy(Mover(author)) && FeedFree(Mover(author))
  {
    var s := Unbarred(if author == "" then NOBODY else author);
    UnbarredIs(if author == "" then NOBODY else author);
    WordsAre(s);
    JoinedWords(Words(s));
  }

  lemma {:induction false} WordsOfJoin(words: seq<string>)
    requires forall k :: 0 <= k < |words| ==> Word(words[k])
    ensures Words(JoinWith(" ", words)) == words
  {
    if words != [] {
      var w, s := words[0], JoinWith(" ", words);
      var tail := if |words| == 1 then "" else " " + JoinWith(" ", words[1..]);
      assert s == w + tail;
      WordEndIs(w, tail, 0);
      assert s[..|w|] == w && s[|w|..] == tail;
      if |words| > 1 {
        assert tail[1..] == JoinWith(" ", words[1..]);
        WordsOfJoin(words[1..]);
      }
    }
  }

  lemma {:induction false} WordEndIs(w: string, tail: string, j: nat)
    requires (forall k :: 0 <= k < |w| ==> !PySpace(w[k])) && (tail != "" ==> PySpace(tail[0])) && j <= |w|
    ensures WordEnd(w + tail, j) == |w|
    decreases |w| - j
  {
    if j < |w| { WordEndIs(w, tail, j + 1); }
  }

  lemma {:induction false} UnbarredStays(s: string)
    requires Barless(s)
    ensures Unbarred(s) == s
  {
    if s != "" { UnbarredStays(s[1..]); }
  }

  /** A name once written in a footer is written the same way again. */
  lemma {:induction false} MoverTwice(author: string)
    requires Mover(author) != ""
    ensures Mover(Mover(author)) == Mover(author)
  {
    var s := Unbarred(if author == "" then NOBODY else author);
    UnbarredIs(if author == "" then NOBODY else author);
    WordsAre(s);
    MoverIsTidy(author);
    UnbarredStays(Mover(author));
    WordsOfJoin(Words(s));
  }

  /** White space and the words apart: a tidy text is its words with single spaces between them. */
  lemma {:induction false} TidyIsItsWords(s: string)
    requires Tidy(s)
    ensures JoinWith(" ", Words(s)) == s
    decreases |s|
  {
    if s != "" {
      var n := WordEnd(s, 0);
      if n < |s| {
        var rest := s[n + 1..];
        assert s[n] == ' ' && s == s[..n] + (" " + rest) && s[n..][1..] == rest;
        TidyRest(s, n);
        TidyIsItsWords(rest);
        assert Words(rest) != [];
      } else {
        assert s[..n] == s && s[n..] == "";
      }
    }
  }

  lemma TidyRest(s: string, n: nat)
    requires Tidy(s) && n < |s| && PySpace(s[n])
    ensures n + 1 < |s| && Tidy(s[n + 1..]) && !PySpace(s[n + 1])
  {}

  lemma CleanStays(s: string)
    requires Barless(s) && Tidy(s)
    ensures JoinWith(" ", Words(Unbarred(s))) == s
  {
    UnbarredStays(s);
    TidyIsItsWords(s);
  }

  lemma NobodyIsClean()
    ensures Barless("(ismeretlen)") && Tidy("(ismeretlen)") && NOBODY == "(ismeretlen)"
  {}

  /** A name without bars and superfluous white space is written as it is; nobody is written as unknown. */
  lemma {:induction false} MoverIsAuthor(author: string)
    ensures author != "" && Barless(author) && Tidy(author) ==> Mover(author) == author
    ensures author == "" ==> Mover(author) == "(ismeretlen)"
  {
    NobodyIsClean();
    hide Barless, Tidy, Words, JoinWith, Unbarred;
    CleanStays("(ismeretlen)");
    if Barless(author) && Tidy(author) { CleanStays(author); }
  }

  function Slashed(s: string): string {
    seq(|s|, k requires 0 <= k < |s| => if s[k] == '|' then '/' else s[k])
  }

  lemma {:induction false} UnbarredIsSlashed(s: string)
    ensures Unbarred(s) == Slashed(s)
  {
    if s != "" { UnbarredIsSlashed(s[1..]); }
  }

  /** Any other name keeps its words, its bars made slashes. */
  lemma {:induction false} MoverKeepsWords(author: string)
    requires author != ""
    ensures Words(Mover(author)) == Words(Slashed(author))
  {
    UnbarredIs(author);
    UnbarredIsSlashed(author);
    WordsAre(Unbarred(author));
    WordsOfJoin(Words(Unbarred(author)));
  }

  // ---- reading the footer ----

  lemma {:induction false} SplitAtLastFeed(head: string, line: string)
    requires FeedFree(line)
    ensures Split(head + ("\n" + line)) == Split(head) + [line]
  {
    var s := head + ("\n" + line);
    if head == "" {
      assert s == "\n" + line && s[1..] == line;
      SplitLine(line, "");
    } else {
      assert s[1..] == head[1..] + ("\n" + line);
      SplitAtLastFeed(head[1..], line);
    }
  }

  predicate AsciiDigits(digit: char -> bool) { forall c :: '0' <= c <= '9' ==> digit(c) }

  lemma {:induction false} StampFound(digit: char -> bool, line: string, j: nat, at: nat)
    requires j <= at && at + |STAMP| < |line| && OccursAt(line, at, STAMP) && DigitsToEnd(digit, line, at + |STAMP|)
    requires forall k :: j < k <= at ==> line[k] != '|'
    ensures StampFrom(digit, line, j) == Some(at)
    decreases at - j
  {
    if j < at {
      if OccursAt(line, j, STAMP) { CharOf(line, j, STAMP, 1); }
      StampFound(digit, line, j + 1, at);
    }
  }

  lemma {:induction false} FieldsFound(digit: char -> bool, line: string, i: nat, at: nat, stamp: nat)
    requires |LEAD| <= i <= at && at + |FIELDS| <= stamp && stamp + |STAMP| < |line| && OccursAt(line, at, FIELDS)
    requires StampFrom(digit, line, at + |FIELDS|) == Some(stamp)
    requires forall k :: i < k <= at ==> line[k] != '|'
    ensures MatchFrom(digit, line, i)
         == Some(Match(line[|LEAD|..at], line[at + |FIELDS|..stamp], line[stamp + |STAMP|..]))
    decreases at - i
  {
    if i < at {
      MatchSkip(digit, line, i);
      hide *;
      FieldsFound(digit, line, i + 1, at, stamp);
    } else {
      MatchHere(digit, line, i, stamp);
    }
  }

  lemma MatchHere(digit: char -> bool, line: string, i: nat, stamp: nat)
    requires |LEAD| <= i && i + |FIELDS| <= stamp && stamp + |STAMP| < |line| && OccursAt(line, i, FIELDS)
    requires StampFrom(digit, line, i + |FIELDS|) == Some(stamp)
    ensures MatchFrom(digit, line, i)
         == Some(Match(line[|LEAD|..i], line[i + |FIELDS|..stamp], line[stamp + |STAMP|..]))
  {
    hide OccursAt, StampFrom;
  }

  lemma MatchSkip(digit: char -> bool, line: string, i: nat)
    requires |LEAD| <= i && i + 1 < |line| && line[i + 1] != '|'
    ensures MatchFrom(digit, line, i) == MatchFrom(digit, line, i + 1)
  {
    if OccursAt(line, i, FIELDS) { CharOf(line, i, FIELDS, 1); }
  }

  lemma FooterMatches(digit: char -> bool, mover: string, fields: string, ts: string)
    requires AsciiDigits(digit) && Barless(mover) && Barless(fields) && ts != "" && Decimals.AllDigits(ts)
    ensures MatchLine(digit, LEAD + (mover + (FIELDS + (fields + (STAMP + ts))))) == Some(Match(mover, fields, ts))
  {
    var t3 := STAMP + ts;
    var t2 := FIELDS + (fields + t3);
    var line := LEAD + (mover + t2);
    var at := |LEAD| + |mover|;
    var stamp := at + |FIELDS| + |fields|;
    Piece(line, 0, LEAD, mover + t2);
    Piece(line, |LEAD|, mover, t2);
    Piece(line, at, FIELDS, fields + t3);
    Piece(line, at + |FIELDS|, fields, t3);
    Piece(line, stamp, STAMP, ts);
    hide *;
    LineMatches(digit, line, at, stamp, mover, fields, ts);
  }

  lemma LineMatches(digit: char -> bool, line: string, at: nat, stamp: nat, mover: string, fields: string, ts: string)
    requires AsciiDigits(digit) && Barless(mover) && Barless(fields) && ts != "" && Decimals.AllDigits(ts)
    requires |LEAD| + |mover| == at && at + |FIELDS| + |fields| == stamp && stamp + |STAMP| + |ts| == |line|
    requires OccursAt(line, 0, LEAD) && line[|LEAD|..at] == mover && OccursAt(line, at, FIELDS)
    requires line[at + |FIELDS|..stamp] == fields && OccursAt(line, stamp, STAMP) && line[stamp + |STAMP|..] == ts
    ensures MatchLine(digit, line) == Some(Match(mover, fields, ts))
  {
    assert FIELDS[0] == ' ' && STAMP[0] == ' ';
    NoBarTo(line, at + |FIELDS|, fields, STAMP);
    NoBarTo(line, |LEAD|, mover, FIELDS);
    DigitTail(digit, line, stamp + |STAMP|, ts);
    LeadThenRest(digit, line);
    hide *;
    StampFound(digit, line, at + |FIELDS|, stamp);
    FieldsFound(digit, line, |LEAD|, at, stamp);
  }

  lemma LeadThenRest(digit: char -> bool, line: string)
    requires OccursAt(line, 0, LEAD)
    ensures MatchLine(digit, line) == MatchFrom(digit, line, |LEAD|)
  {}

  lemma Piece(s: string, j: nat, a: string, b: string)
    requires j <= |s| && s[j..] == a + b
    ensures OccursAt(s, j, a) && s[j..j + |a|] == a && s[j + |a|..] == b && |s| == j + |a| + |b|
  {
    assert s[j..][..|a|] == a && s[j..][|a|..] == b;
  }

  lemma NoBar(s: string, j: nat, a: string)
    requires j + |a| <= |s| && s[j..j + |a|] == a && Barless(a)
    ensures forall k :: j <= k < j + |a| ==> s[k] != '|'
  {
    forall k | j <= k < j + |a| ensures s[k] != '|' {
      assert s[j..j + |a|][k - j] == a[k - j];
    }
  }

  lemma NoBarTo(s: string, j: nat, a: string, next: string)
    requires j + |a| <= |s| && s[j..j + |a|] == a && Barless(a)
    requires OccursAt(s, j + |a|, next) && next != "" && next[0] == ' '
    ensures forall k :: j <= k <= j + |a| ==> s[k] != '|'
  {
    NoBar(s, j, a);
    CharOf(s, j + |a|, next, 0);
    hide OccursAt, Barless;
  }

  lemma DigitTail(digit: char -> bool, s: string, j: nat, ts: string)
    requires AsciiDigits(digit) && j <= |s| && s[j..] == ts && ts != "" && Decimals.AllDigits(ts)
    ensures DigitsToEnd(digit, s, j)
  {
    forall k | j <= k < |s| ensures digit(s[k]) {
      assert s[k] == ts[k - j];
    }
  }

  lemma {:induction false} JoinedFields(fields: seq<string>)
    requires forall k :: 0 <= k < |fields| ==> Barless(fields[k]) && FeedFree(fields[k])
    ensures Barless(JoinWith(",", fields)) && FeedFree(JoinWith(",", fields))
  {
    if |fields| > 1 { JoinedFields(fields[1..]); }
  }

  /** The footer names its mover, its fields and its time behind the words the pattern looks for. */
  lemma {:induction false} FooterReads(author: string, fields: seq<string>, now: nat)
    ensures Footer(author, fields, now)
         == "-- mozgato: " + (Mover(author) + (" | mezok: " + (JoinWith(",", fields)
                                                              + (" | ts: " + Decimals.Print(now)))))
  {
    hide Mover, JoinWith, Decimals.Print;
  }

  /** The footer parses back: behind any text at all, the last match gives the mover's name, the fields and the time
      that were written. */
  lemma {:induction false} FooterParsesBack(digit: char -> bool, head: string, author: string, fields: seq<string>,
                                            now: nat)
    requires AsciiDigits(digit) && forall k :: 0 <= k < |fields| ==> Barless(fields[k]) && FeedFree(fields[k])
    ensures var found := FindAll(digit, Split(head + ("\n" + Footer(author, fields, now))));
            found != []
            && found[|found| - 1] == Match(Mover(author), JoinWith(",", fields), Decimals.Print(now))
  {
    MoverIsTidy(author);
    JoinedFields(fields);
    var foot := Footer(author, fields, now);
    FooterMatches(digit, Mover(author), JoinWith(",", fields), Decimals.Print(now));
    FooterIsLine(Mover(author), JoinWith(",", fields), Decimals.Print(now));
    SplitAtLastFeed(head, foot);
    assert (Split(head) + [foot])[..|Split(head)|] == Split(head);
  }

  lemma FooterIsLine(mover: string, fields: string, ts: string)
    requires FeedFree(mover) && FeedFree(fields) && Decimals.AllDigits(ts)
    ensures FeedFree(LEAD + (mover + (FIELDS + (fields + (STAMP + ts)))))
  {
    FreeCat(STAMP, ts);
    FreeCat(fields, STAMP + ts);
    FreeCat(FIELDS, fields + (STAMP + ts));
    FreeCat(mover, FIELDS + (fields + (STAMP + ts)));
    FreeCat(LEAD, mover + (FIELDS + (fields + (STAMP + ts))));
  }

  lemma FreeCat(a: string, b: string)
    requires FeedFree(a) && FeedFree(b)
    ensures FeedFree(a + b)
  {}

  /** So nothing in the note's text can silence the warning or put another name into it: the report warns about the
      author who wrote the note exactly if it is younger than half an hour and the next author's name differs. */
  lemma {:induction false} WarningNamesTheMover(digit: char -> bool, lower: string -> string, head: string,
                                                author: string, fields: seq<string>, now: nat, age: int, next: string)
    requires AsciiDigits(digit) && forall k :: 0 <= k < |fields| ==> Barless(fields[k]) && FeedFree(fields[k])
    ensures Report(digit, lower, head + ("\n" + Footer(author, fields, now)), age, next)
         == if age < 1800 && lower(Mover(author)) != lower(next) then SomeoneElse(Mover(author), JoinWith(",", fields))
            else Known(Mover(author), JoinWith(",", fields))
  {
    hide *;
    FooterParsesBack(digit, head, author, fields, now);
    MoverIsTidy(author);
    TidyTrim(Mover(author));
    ReportOf(digit, lower, head + ("\n" + Footer(author, fields, now)), age, next,
             Match(Mover(author), JoinWith(",", fields), Decimals.Print(now)));
  }

  lemma ReportOf(digit: char -> bool, lower: string -> string, note: string, age: int, author: string, last: Match)
    requires var found := FindAll(digit, Split(note)); found != [] && found[|found| - 1] == last
    requires Trim(PySpace, last.mover) == last.mover
    ensures Report(digit, lower, note, age, author)
         == if age < 1800 && lower(last.mover) != lower(author) then SomeoneElse(last.mover, last.fields)
            else Known(last.mover, last.fields)
  {
    hide FindAll, Split, Trim, PySpace;
  }

  lemma {:induction false} NoMatches(digit: char -> bool, lines: seq<string>)
    requires forall k :: 0 <= k < |lines| ==> MatchLine(digit, lines[k]) == None
    ensures FindAll(digit, lines) == []
  {
    hide MatchLine;
    if lines != [] { NoMatches(digit, lines[..|lines| - 1]); }
  }

  /** A note without a footer names nobody; the report only says whether it is younger than half an hour. */
  lemma {:induction false} NoteWithoutFooter(digit: char -> bool, lower: string -> string, note: string, age: int,
                                             author: string)
    requires forall k :: 0 <= k < |Split(note)| ==> MatchLine(digit, Split(note)[k]) == None
    ensures Report(digit, lower, note, age, author) == NoFooter(age < 1800)
  {
    NoMatches(digit, Split(note));
  }

  lemma TidyTrim(s: string)
    requires Tidy(s)
    ensures Trim(PySpace, s) == s
  {}
}
