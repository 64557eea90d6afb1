/** The seven steps of the topics patch in scripts/patch-telegram-plugin.py, with the lines they insert left open. */
module TopicsSteps {
  import opened Lines
  import opened Strings
  import opened TextLines
  import opened TopicsLines
  import opened TopicsPatch
  import opened TopicsWrites

  const META_TS: string := "ts: new Date((ctx.message?.date " + "?? 0) * 1000).toISOString(),"
  const TYPING: string := "void bot.api.sendChatAction(" + "chat_id, 'typing').catch(() => {})"
  const ARRIVE: string := "'Messages from Telegram arrive as " + "<channel source=\"telegram\" "
  const FILES: string := "files: {"
  const FILES_TYPE: string := "type: 'array',"
  const FILES_ITEMS: string := "items: { type: 'string' },"
  const FILES_TEXT: string := "description: 'Absolute file paths"
  const REPLY_TO: string := "const reply_to = " + "args.reply_to != null " + "? Number(args.reply_to) " + ": undefined"
  const REPLY_TEXT: string :=
    "...(shouldReplyTo ? " + "{ reply_parameters: " + "{ message_id: reply_to " + "} } : {}),"
  const OPTS: string := "const opts = reply_to != null " + "&& replyMode !== 'off'"
  const OPTS_THEN: string := "? { reply_parameters: " + "{ message_id: reply_to } }"
  const OPTS_ELSE: string := ": undefined"

  /** The step table; `lines` are the inserted lines of each step. */
  function Steps(lines: seq<seq<string>>): seq<Step>
    requires |lines| == 7
  {
    [ Step("inbound meta ts", InsertAfter, [Exact(META_TS)], lines[0]),
      Step("typing indicator", Replace, [Exact(TYPING)], lines[1]),
      Step("instructions inbound tag", InsertAfter, [Prefix(ARRIVE)], lines[2]),
      Step("reply schema files", InsertBefore,
           [Exact(FILES), Exact(FILES_TYPE), Exact(FILES_ITEMS), Open(FILES_TEXT)], lines[3]),
      Step("reply args", InsertAfter, [Exact(REPLY_TO)], lines[4]),
      Step("reply text options", InsertAfter, [Exact(REPLY_TEXT)], lines[5]),
      Step("reply file options", Replace, [Exact(OPTS), Exact(OPTS_THEN), Exact(OPTS_ELSE)], lines[6])
    ]
  }

  predicate GoodLines(lines: seq<string>) { lines != [] && forall k :: 0 <= k < |lines| ==> BreakFree(lines[k]) }

  /** Printable ASCII holds no line break. */
  predicate Printable(s: string) { forall k :: 0 <= k < |s| ==> ' ' <= s[k] <= '~' }

  lemma PrintableIsFree(a: string, b: string)
    requires Printable(a) && Printable(b)
    ensures BreakFree(a + b)
  {}

  lemma TypingIsGood()
    ensures GoodReplaced(Exact(TYPING))
  {
    var a, b := "void bot.api.sendChatAction(", "chat_id, 'typing').catch(() => {})";
    PrintableIsFree(a, b);
    hide BreakFree;
    assert b[|b| - 2] == '}' && TYPING[|TYPING| - 2] == b[|b| - 2];
    assert ApartAt(TYPING, TAG_END, 1);
    assert TYPING[0] == a[0] == 'v';
  }

  lemma OptsIsGood()
    ensures GoodReplaced(Exact(OPTS))
  {
    var a, b := "const opts = reply_to != null ", "&& replyMode !== 'off'";
    PrintableIsFree(a, b);
    hide BreakFree;
    assert b[|b| - 1] == '\'' && OPTS[|OPTS| - 1] == b[|b| - 1];
    assert ApartAt(OPTS, TAG_END, 0);
    assert OPTS[0] == a[0] == 'c';
  }

  lemma OptsThenIsGood()
    ensures GoodReplaced(Exact(OPTS_THEN))
  {
    var a, b := "? { reply_parameters: ", "{ message_id: reply_to } }";
    PrintableIsFree(a, b);
    hide BreakFree;
    assert b[|b| - 1] == '}' && OPTS_THEN[|OPTS_THEN| - 1] == b[|b| - 1];
    assert ApartAt(OPTS_THEN, TAG_END, 0);
    assert OPTS_THEN[0] == a[0] == '?';
  }

  lemma OptsElseIsGood()
    ensures GoodReplaced(Exact(OPTS_ELSE))
  {
    assert BreakFree(OPTS_ELSE);
    assert ApartAt(OPTS_ELSE, TAG_END, 0);
  }

  /** Each of the seven steps is one that leaves no trace. */
  lemma {:induction false} StepsAreGood(lines: seq<seq<string>>)
    requires |lines| == 7 && forall k :: 0 <= k < 7 ==> GoodLines(lines[k])
    ensures forall k :: 0 <= k < |Steps(lines)| ==> GoodStep(Steps(lines)[k])
  {
    TypingIsGood();
    OptsIsGood();
    OptsThenIsGood();
    OptsElseIsGood();
    hide GoodReplaced, BreakFree;
    forall k | 0 <= k < 7 ensures GoodStep(Steps(lines)[k]) {
      assert GoodLines(lines[k]);
    }
  }

  /** The topics switch over any text without a mark: on, off gives the original back, on again the patched text. */
  lemma {:induction false} TopicsSwitch(t: string, lines: seq<seq<string>>)
    requires |lines| == 7 && forall k :: 0 <= k < 7 ==> GoodLines(lines[k])
    requires !Marked(t) && Apply(t, Steps(lines)).1 == Patched
    ensures var on := Apply(t, Steps(lines)).0;
            Remove(on) == t && Apply(Remove(on), Steps(lines)) == (on, Patched)
            && Apply(on, Steps(lines)) == (on, Already)
  {
    StepsAreGood(lines);
    assert GoodLines(lines[6]) && Steps(lines)[6].lines == lines[6];
    hide *;
    TopicsRoundTrip(t, Steps(lines));
  }

  lemma StepsArePlain(lines: seq<seq<string>>)
    requires |lines| == 7
    ensures forall k :: 0 <= k < |Steps(lines)| ==> PlainAnchor(Steps(lines)[k].anchor)
  {
    AnchorHeads();
    hide FeedFree;
  }

  /** What the seven steps write, and which of them is named when one does not go on. */
  lemma {:induction false} SwitchExactly(t: string, lines: seq<seq<string>>, u: string, name: string)
    requires |lines| == 7
    ensures Apply(t, Steps(lines)) == (u, Patched)
       <==> !Contains(t, "// MARVEEN-PATCH(tgtopics)") && AllWrite(t, Steps(lines), u)
    ensures Apply(t, Steps(lines)) == (t, AnchorMissing(name))
       <==> !Contains(t, "// MARVEEN-PATCH(tgtopics)")
            && exists k: nat :: k < |Steps(lines)| && StopsAt(t, Steps(lines), k) && Steps(lines)[k].name == name
    ensures Apply(t, Steps(lines)) == (t, Already) <==> Contains(t, "// MARVEEN-PATCH(tgtopics)")
  {
    StepsArePlain(lines);
    hide *;
    ApplyExactly(t, Steps(lines), u, name);
  }

  // ---- a text with a kept line ----

  lemma NoComments(lines: seq<seq<string>>)
    requires |lines| == 7
    ensures forall k :: 0 <= k < |Steps(lines)| ==> NoComment(Steps(lines)[k])
  {
    AnchorHeads();
    hide LineIs;
  }

  /** For every text the seven steps go on, the same text behind a line that holds the prefix only takes them too, and
      does not come back. */
  lemma {:induction false} KeptLineIsLost(t: string, lines: seq<seq<string>>)
    requires |lines| == 7 && forall k :: 0 <= k < 7 ==> GoodLines(lines[k])
    requires Apply(t, Steps(lines)).1 == Patched
    ensures var k := KEPT_LINE + t;
            Apply(k, Steps(lines)) == (KEPT_LINE + Apply(t, Steps(lines)).0, Patched)
            && Remove(Apply(k, Steps(lines)).0) != k
  {
    StepsAreGood(lines);
    NoComments(lines);
    hide *;
    TopicsLines.KeptLineIsLost(t, Steps(lines));
  }

  // ---- a text the steps go on ----

  /** A line without a slash, with its first and its seventh character. */
  predicate LineIs(l: string, first: char, seventh: char) {
    PlainLine(l) && '/' !in l && |l| > 6 && l[0] == first && l[6] == seventh
  }

  lemma LineCat(a: string, b: string, first: char, seventh: char)
    requires LineIs(a, first, seventh) && FeedFree(b) && '/' !in b
    ensures LineIs(a + b, first, seventh)
  {}

  lemma MetaHead()
    ensures LineIs(META_TS, 't', 'w')
  {
    LineCat("ts: new Date((ctx.message?.date ", "?? 0) * 1000).toISOString(),", 't', 'w');
  }

  lemma TypingHead()
    ensures LineIs(TYPING, 'v', 'o')
  {
    LineCat("void bot.api.sendChatAction(", "chat_id, 'typing').catch(() => {})", 'v', 'o');
  }

  lemma ArriveHead()
    ensures LineIs(ARRIVE, '\'', 'g')
  {
    LineCat("'Messages from Telegram arrive as ", "<channel source=\"telegram\" ", '\'', 'g');
  }

  lemma FilesHeads()
    ensures LineIs(FILES, 'f', ' ') && LineIs(FILES_TYPE, 't', '\'')
  {}

  lemma FilesRestHeads()
    ensures LineIs(FILES_ITEMS, 'i', ' ') && LineIs(FILES_TEXT, 'd', 'p')
  {}

  lemma ReplyToHead()
    ensures LineIs(REPLY_TO, 'c', 'r')
  {
    var a, b, c, d := "const reply_to = ", "args.reply_to != null ", "? Number(args.reply_to) ", ": undefined";
    LineCat(a, b, 'c', 'r');
    hide LineIs;
    LineCat(a + b, c, 'c', 'r');
    LineCat(a + b + c, d, 'c', 'r');
  }

  lemma ReplyTextHead()
    ensures LineIs(REPLY_TEXT, '.', 'o')
  {
    var a, b, c, d := "...(shouldReplyTo ? ", "{ reply_parameters: ", "{ message_id: reply_to ", "} } : {}),";
    LineCat(a, b, '.', 'o');
    hide LineIs;
    LineCat(a + b, c, '.', 'o');
    LineCat(a + b + c, d, '.', 'o');
  }

  lemma OptsHead()
    ensures LineIs(OPTS, 'c', 'o')
  {
    LineCat("const opts = reply_to != null ", "&& replyMode !== 'off'", 'c', 'o');
  }

  lemma OptsRestHeads()
    ensures LineIs(OPTS_THEN, '?', 'p') && LineIs(OPTS_ELSE, ':', 'f')
  {
    LineCat("? { reply_parameters: ", "{ message_id: reply_to } }", '?', 'p');
  }

  lemma AnchorHeads()
    ensures LineIs(META_TS, 't', 'w') && LineIs(TYPING, 'v', 'o') && LineIs(ARRIVE, '\'', 'g')
    ensures LineIs(FILES, 'f', ' ') && LineIs(FILES_TYPE, 't', '\'') && LineIs(FILES_ITEMS, 'i', ' ')
    ensures LineIs(FILES_TEXT, 'd', 'p') && LineIs(REPLY_TO, 'c', 'r') && LineIs(REPLY_TEXT, '.', 'o')
    ensures LineIs(OPTS, 'c', 'o') && LineIs(OPTS_THEN, '?', 'p') && LineIs(OPTS_ELSE, ':', 'f')
  {
    hide LineIs;
    MetaHead();
    TypingHead();
    ArriveHead();
    FilesHeads();
    FilesRestHeads();
    ReplyToHead();
    ReplyTextHead();
    OptsHead();
    OptsRestHeads();
  }

  /** The lines of the seven anchors, in the order of the steps. */
  function AnchorLines(): seq<seq<string>> {
    [[META_TS], [TYPING], [ARRIVE], [FILES, FILES_TYPE, FILES_ITEMS, FILES_TEXT], [REPLY_TO], [REPLY_TEXT],
     [OPTS, OPTS_THEN, OPTS_ELSE]]
  }

  /** Seven steps that insert a one-letter line each. */
  function XLines(): seq<seq<string>> { [["x"], ["x"], ["x"], ["x"], ["x"], ["x"], ["x"]] }

  /** The first and the seventh character of each step's anchor. */
  function Head(k: nat): (char, char)
    requires k < 7
  {
    [('t', 'w'), ('v', 'o'), ('\'', 'g'), ('f', ' '), ('c', 'r'), ('.', 'o'), ('c', 'o')][k]
  }

  predicate Elsewhere(first: char, seventh: char, k: nat)
    requires k < 7
  {
    first != Head(k).0 || seventh != Head(k).1
  }

  lemma HeadDiffers(l: string, first: char, seventh: char, k: nat, lit: string)
    requires k < 7 && LineIs(lit, Head(k).0, Head(k).1)
    requires PlainLine(l) && |l| > 6 && l[0] == first && l[6] == seventh && Elsewhere(first, seventh, k)
    ensures Differs(l, lit)
  {}

  lemma TaggedLine()
    ensures var l := "x" + TAG_END; PlainLine(l) && |l| > 6 && l[0] == 'x'
  {
    var l := "x" + TAG_END;
    assert FeedFree(TAG_END) && l[0] == 'x';
    assert forall k :: 1 <= k < |l| ==> l[k] == TAG_END[k - 1];
  }

  lemma KeptIs(l: string)
    requires PlainLine(l)
    ensures var k := ORIG + l; PlainLine(k) && |k| > 6 && k[0] == '/'
  {
    KeptLineFacts();
    assert forall i :: 0 <= i < |ORIG + l| ==> (ORIG + l)[i] == if i < 32 then ORIG[i] else l[i - 32];
  }

  function Lit(k: nat): string
    requires k < 7
  {
    [META_TS, TYPING, ARRIVE, FILES, REPLY_TO, REPLY_TEXT, OPTS][k]
  }

  lemma LitIs(k: nat)
    requires k < 7
    ensures LineIs(Lit(k), Head(k).0, Head(k).1) && Lit(k) == AnchorLines()[k][0]
    ensures var s := Steps(XLines())[k]; s.anchor != [] && s.anchor[0].lit == Lit(k) && s.lines == ["x"]
  {
    AnchorHeads();
    hide LineIs;
  }

  /** Every line of a block has a head, and no other step's anchor has the same. */
  lemma BlockHeads(j: nat, i: nat) returns (first: char, seventh: char)
    requires j < 7 && i < |AnchorLines()[j]|
    ensures LineIs(AnchorLines()[j][i], first, seventh)
    ensures forall k: nat :: k < 7 && k != j ==> Elsewhere(first, seventh, k)
  {
    AnchorHeads();
    hide LineIs;
    if j == 3 {
      first := "ftid"[i];
      seventh := [' ', '\'', ' ', 'p'][i];
    } else if j == 6 {
      first := "c?:"[i];
      seventh := "opf"[i];
    } else {
      first, seventh := Head(j).0, Head(j).1;
    }
  }

  lemma BlockElsewhere(j: nat, k: nat)
    requires j < 7 && k < 7 && j != k
    ensures AllDiffer(AnchorLines()[j], Lit(k))
  {
    LitIs(k);
    hide Differs, Head, Lit, AnchorLines, Elsewhere;
    forall i | 0 <= i < |AnchorLines()[j]| ensures Differs(AnchorLines()[j][i], Lit(k)) {
      var first, seventh := BlockHeads(j, i);
      HeadDiffers(AnchorLines()[j][i], first, seventh, k, Lit(k));
    }
  }

  lemma NoLitStarts(k: nat)
    requires k < 7
    ensures Lit(k) != "" && Lit(k)[0] != 'x' && Lit(k)[0] != '/'
  {
    LitIs(k);
    hide Lit;
  }

  lemma {:induction false} KeptElsewhere(m: seq<string>, k: nat)
    requires k < 7 && forall i :: 0 <= i < |m| ==> PlainLine(m[i])
    ensures AllDiffer(KeptLines(m), Lit(k))
  {
    if m != [] {
      KeptElsewhere(m[1..], k);
      KeptIs(m[0]);
      NoLitStarts(k);
      hide PlainLine, Lit;
      DiffersCat([ORIG + m[0]], KeptLines(m[1..]), Lit(k));
    }
  }

  lemma DoneElsewhere(j: nat, k: nat)
    requires j < 7 && k < 7 && j != k
    ensures AllDiffer(Done(AnchorLines()[j], Steps(XLines())[j]), Lit(k))
  {
    var m, s, tagged := AnchorLines()[j], Steps(XLines())[j], ["x" + TAG_END];
    LitIs(j);
    BlockElsewhere(j, k);
    TaggedLine();
    NoLitStarts(k);
    assert Tagged(["x"]) == tagged + Tagged([]) && ["x"][1..] == [] && Tagged([]) == [];
    assert Tagged(s.lines) == tagged;
    assert AllDiffer(tagged, Lit(k));
    assert forall i :: 0 <= i < |m| ==> Differs(m[i], Lit(k));
    KeptElsewhere(m, k);
    hide AnchorLines, Steps, Lit, Differs, Tagged, KeptLines;
    DiffersCat(tagged, m, Lit(k));
    DiffersCat(m, tagged, Lit(k));
    DiffersCat(KeptLines(m), tagged, Lit(k));
  }

  lemma AnchorLinesFit(j: nat)
    requires j < 7
    ensures BlockOf(Steps(XLines())[j], AnchorLines()[j])
  {
    AnchorHeads();
    TypingIsGood();
    OptsIsGood();
    OptsThenIsGood();
    OptsElseIsGood();
    hide FeedFree, BreakFree, EndsApart;
  }

  lemma AnchorLinesAreSeparate()
    ensures Blocks(Steps(XLines()), AnchorLines()) && Separate(Steps(XLines()), AnchorLines())
    ensures Clear([], Steps(XLines()))
  {
    var steps, blocks := Steps(XLines()), AnchorLines();
    forall j | 0 <= j < 7 ensures BlockOf(steps[j], blocks[j]) && steps[j].anchor[0].lit == Lit(j) {
      AnchorLinesFit(j);
      LitIs(j);
    }
    forall j, k | 0 <= j < k < 7
      ensures AllDiffer(Done(blocks[j], steps[j]), Lit(k)) && AllDiffer(blocks[k], Lit(j))
    {
      DoneElsewhere(j, k);
      BlockElsewhere(k, j);
    }
    hide Done, AllDiffer, Lit, BlockOf;
    assert forall k :: 0 <= k < 7 ==> AllDiffer([], Lit(k)) by {
      forall k | 0 <= k < 7 ensures AllDiffer([], Lit(k)) { NoneDiffers(Lit(k)); }
    }
  }

  lemma NoneDiffers(lit: string)
    ensures AllDiffer([], lit)
  {}

  predicate NoSlash(ls: seq<string>) { forall k :: 0 <= k < |ls| ==> '/' !in ls[k] }

  lemma {:induction false} ShowHasNoSlash(ls: seq<string>)
    requires NoSlash(ls)
    ensures '/' !in Show(ls)
  {
    if ls != [] { ShowHasNoSlash(ls[1..]); }
  }

  lemma {:induction false} FlatHasNoSlash(blocks: seq<seq<string>>)
    requires forall j :: 0 <= j < |blocks| ==> NoSlash(blocks[j])
    ensures NoSlash(Flat(blocks))
  {
    if blocks != [] { FlatHasNoSlash(blocks[1..]); }
  }

  lemma SlashlessUnmarked(t: string)
    requires '/' !in t
    ensures !Marked(t)
  {
    assert TAG != "" && TAG[0] == '/' && ORIG != "" && ORIG[0] == '/';
    forall k: nat | k <= |t| ensures !OccursAt(t, k, TAG) && !OccursAt(t, k, ORIG) {
      if OccursAt(t, k, TAG) { CharOf(t, k, TAG, 0); }
      if OccursAt(t, k, ORIG) { CharOf(t, k, ORIG, 0); }
    }
  }

  const PLAIN_TEXT: string := Show(Flat(AnchorLines()))

  /** There are such texts: the anchors' lines alone take the seven steps. So the switch works on a text, and a line
      that holds the prefix only makes of it one that does not come back. */
  lemma {:induction false} SomeTextIsPatched()
    ensures |XLines()| == 7 && (forall k :: 0 <= k < 7 ==> GoodLines(XLines()[k])) && !Marked(PLAIN_TEXT)
    ensures Apply(PLAIN_TEXT, Steps(XLines())).1 == Patched
    ensures Apply(KEPT_LINE + PLAIN_TEXT, Steps(XLines())).1 == Patched
    ensures Remove(Apply(KEPT_LINE + PLAIN_TEXT, Steps(XLines())).0) != KEPT_LINE + PLAIN_TEXT
  {
    hide *;
    XLinesAreGood();
    PlainTextUnmarked();
    AnchorLinesAreSeparate();
    StepsGoOn([], Steps(XLines()), AnchorLines());
    PlainTextIs();
    Applies(PLAIN_TEXT, Steps(XLines()));
    KeptLineIsLost(PLAIN_TEXT, XLines());
  }

  lemma XLinesAreGood()
    ensures |XLines()| == 7 && forall k :: 0 <= k < 7 ==> GoodLines(XLines()[k])
  {
    assert BreakFree("x");
  }

  lemma PlainTextIs()
    ensures PLAIN_TEXT == Show([]) + Show(Flat(AnchorLines()))
  {
    hide Flat, AnchorLines;
    assert Show([]) == "" && "" + PLAIN_TEXT == PLAIN_TEXT;
  }

  lemma PlainTextUnmarked()
    ensures !Marked(PLAIN_TEXT)
  {
    forall j | 0 <= j < 7 ensures NoSlash(AnchorLines()[j]) {
      forall i | 0 <= i < |AnchorLines()[j]| ensures '/' !in AnchorLines()[j][i] {
        var first, seventh := BlockHeads(j, i);
      }
    }
    assert |AnchorLines()| == 7;
    hide Flat, Show, AnchorLines, NoSlash, Marked;
    FlatHasNoSlash(AnchorLines());
    ShowHasNoSlash(Flat(AnchorLines()));
    SlashlessUnmarked(PLAIN_TEXT);
  }

  lemma Applies(t: string, steps: seq<Step>)
    requires !Marked(t) && ApplySteps(t, steps).1 == Patched
    ensures Apply(t, steps).1 == Patched
  {
    hide Contains, ApplySteps;
  }
}
