/** `readAll` of scripts/secret-gate.ts: the contents of many git objects out of one `git cat-file --batch` stream.

    The stream is a string of latin1 characters, one a byte. A record is a header line, and for a blob its content and
    a line feed; the content may hold line feeds of its own, so the reader moves a cursor by the announced size. */
module BatchStream {
  import Decimals
  import opened Options
  import opened Sequences

  const MAX_BYTES: nat := 5 * 1024 * 1024

  const MODE_GITLINK: string := "160000"

  datatype Entry = Entry(path: string, mode: string, sha: string)

  /** What the reader holds for an object. */
  datatype Blob = Content(text: string) | NoRecord | NotBlob(header: string) | TooBig(size: nat)

  datatype Reason = Gitlink | Unresolved | Unread(blob: Blob)

  datatype ScanInput = Readable(path: string, content: string) | Unreadable(path: string, reason: Reason)

  // ---- the reader ----

  /** Where the line at `at` ends, or None when the stream has no line feed from there on. */
  function LineFeed(s: string, at: nat): (r: Option<nat>)
    ensures r.Some? ==> at <= r.value < |s| && s[r.value] == '\n'
    decreases |s| - at
  {
    if at >= |s| then None else if s[at] == '\n' then Some(at) else LineFeed(s, at + 1)
  }

  /** The fields of a header, split at each space. */
  function Fields(s: string): (fs: seq<string>)
    ensures |fs| > 0
  {
    if s == "" then [""]
    else
      var rest := Fields(s[1..]);
      if s[0] == ' ' then [""] + rest else [[s[0]] + rest[0]] + rest[1..]
  }

  /** JavaScript's Number on a size field: NaN when there is none or it is not made of digits, 0 when it is empty. */
  function SizeOf(fs: seq<string>): Option<nat> {
    if |fs| < 3 || !Decimals.AllDigits(fs[2]) then None else Some(Decimals.Value(fs[2]))
  }

  function Clip(s: string, from: nat, len: nat): string
    requires from <= |s|
  {
    if from + len <= |s| then s[from..from + len] else s[from..]
  }

  /** The record at `at`: what it says of its object and where the cursor goes. A size that is no number leaves no
      content and sends the cursor back to the start, as NaN does. */
  function ReadRecord(s: string, at: nat): (Blob, nat) {
    var nl := LineFeed(s, at);
    if nl == None then (NoRecord, at)
    else
      var header := s[at..nl.value];
      var fs := Fields(header);
      if |fs| < 2 || fs[1] != "blob" then (NotBlob(header), nl.value + 1)
      else
        var start := nl.value + 1;
        match SizeOf(fs)
        case None => (Content(""), 0)
        case Some(size) =>
          (if size > MAX_BYTES then TooBig(size) else Content(Clip(s, start, size)), start + size + 1)
  }

  function ReadFrom(s: string, at: nat, order: seq<string>): map<string, Blob>
    decreases |order|
  {
    if order == [] then map[]
    else
      var (b, next) := ReadRecord(s, at);
      var rest := ReadFrom(s, next, order[1..]);
      if order[0] in rest then rest else rest[order[0] := b]
  }

  /** The objects asked for, each once, in the order of their first entry. */
  function Order(entries: seq<Entry>): (order: seq<string>)
    ensures Distinct(order)
    ensures forall sha :: sha in order <==> sha != "" && exists k :: 0 <= k < |entries| && entries[k].sha == sha
  {
    if entries == [] then []
    else
      var front, sha := Order(entries[..|entries| - 1]), entries[|entries| - 1].sha;
      if sha == "" || sha in front then front else front + [sha]
  }

  function InputOf(e: Entry, blobs: map<string, Blob>): ScanInput {
    if e.mode == MODE_GITLINK then Unreadable(e.path, Gitlink)
    else if e.sha == "" then Unreadable(e.path, Unresolved)
    else if e.sha !in blobs then Unreadable(e.path, Unread(NoRecord))
    else if blobs[e.sha].Content? then Readable(e.path, blobs[e.sha].text)
    else Unreadable(e.path, Unread(blobs[e.sha]))
  }

  function Inputs(entries: seq<Entry>, out: string): (r: seq<ScanInput>)
    ensures |r| == |entries| && forall k :: 0 <= k < |r| ==> r[k].path == entries[k].path
  {
    var blobs := ReadFrom(out, 0, Order(entries));
    seq(|entries|, k requires 0 <= k < |entries| => InputOf(entries[k], blobs))
  }

  method CollectOrder(entries: seq<Entry>) returns (order: seq<string>)
    ensures order == Order(entries)
  {
    order := [];
    for k := 0 to |entries|
      invariant order == Order(entries[..k])
    {
      assert entries[..k + 1][..k] == entries[..k];
      if entries[k].sha != "" && entries[k].sha !in order {
        order := order + [entries[k].sha];
      }
    }
    assert entries[..|entries|] == entries;
  }

  /** The loop over the stream: one record a line sent, whatever comes back. */
  method ReadStream(order: seq<string>, out: string) returns (blobs: map<string, Blob>)
    requires Distinct(order)
    ensures blobs == ReadFrom(out, 0, order)
  {
    blobs := map[];
    var at: nat := 0;
    for k := 0 to |order|
      invariant blobs.Keys == Elements(order[..k])
      invariant blobs + ReadFrom(out, at, order[k..]) == ReadFrom(out, 0, order)
    {
      ReadOne(out, at, order, k, blobs);
      var b: Blob;
      b, at := NextRecord(out, at);
      blobs := blobs[order[k] := b];
    }
    assert order[|order|..] == [] && order[..|order|] == order;
  }

  /** One turn of the loop: the record at the cursor, and the cursor behind it. */
  method NextRecord(out: string, at: nat) returns (b: Blob, next: nat)
    ensures (b, next) == ReadRecord(out, at)
  {
    var nl := LineFeed(out, at);
    if nl == None {
      return NoRecord, at;
    }
    var header := out[at..nl.value];
    var fs := Fields(header);
    if |fs| < 2 || fs[1] != "blob" {
      return NotBlob(header), nl.value + 1;
    }
    var start := nl.value + 1;
    match SizeOf(fs)
    case None =>
      b, next := Content(""), 0;
    case Some(size) =>
      b := if size > MAX_BYTES then TooBig(size) else Content(Clip(out, start, size));
      next := start + size + 1;
  }

  lemma ReadOne(s: string, at: nat, order: seq<string>, k: nat, blobs: map<string, Blob>)
    requires k < |order| && Distinct(order) && blobs.Keys == Elements(order[..k])
    ensures var (b, next) := ReadRecord(s, at);
            blobs + ReadFrom(s, at, order[k..]) == blobs[order[k] := b] + ReadFrom(s, next, order[k + 1..])
    ensures blobs.Keys + {order[k]} == Elements(order[..k + 1])
  {
    var rest := order[k + 1..];
    assert order[k..][0] == order[k] && order[k..][1..] == rest;
    var (b, next) := ReadRecord(s, at);
    ReadKeys(s, next, rest);
    assert order[k] !in rest;
    assert ReadFrom(s, at, order[k..]) == ReadFrom(s, next, rest)[order[k] := b];
    assert order[..k + 1] == order[..k] + [order[k]];
    hide *;
    MergeOne(blobs, ReadFrom(s, next, rest), order[k], b);
    OneElement(order[..k], order[k]);
  }

  lemma MergeOne(a: map<string, Blob>, b: map<string, Blob>, key: string, v: Blob)
    requires key !in b
    ensures a + b[key := v] == a[key := v] + b
  {}

  lemma OneElement(s: seq<string>, x: string)
    ensures Elements(s + [x]) == Elements(s) + {x}
  {}

  /** readAll, with the output of the one batch process as its input. */
  method ReadAll(entries: seq<Entry>, out: string) returns (r: seq<ScanInput>)
    ensures r == Inputs(entries, out)
  {
    var order := CollectOrder(entries);
    var blobs := ReadStream(order, out);
    r := seq(|entries|, k requires 0 <= k < |entries| => InputOf(entries[k], blobs));
  }

  lemma {:induction false} ReadKeys(s: string, at: nat, order: seq<string>)
    ensures ReadFrom(s, at, order).Keys == Elements(order)
    decreases |order|
  {
    if order != [] { ReadKeys(s, ReadRecord(s, at).1, order[1..]); }
  }

  // ---- the writer ----

  /** What git answers for an object. */
  datatype Answer = Blob(content: string) | Missing

  function Header(sha: string, a: Answer): string {
    match a
    case Blob(content) => sha + (" blob " + Decimals.Print(|content|))
    case Missing => sha + " missing"
  }

  function Body(a: Answer): string {
    match a
    case Blob(content) => content + "\n"
    case Missing => ""
  }

  function Record(sha: string, a: Answer): string { Header(sha, a) + "\n" + Body(a) }

  function Stream(order: seq<string>, answers: map<string, Answer>): string
    requires forall sha :: sha in order ==> sha in answers
  {
    if order == [] then "" else Record(order[0], answers[order[0]]) + Stream(order[1..], answers)
  }

  /** Where the record of the k-th object starts. */
  function Offset(order: seq<string>, answers: map<string, Answer>, k: nat): nat
    requires k <= |order| && forall sha :: sha in order ==> sha in answers
  {
    if k == 0 then 0 else |Record(order[0], answers[order[0]])| + Offset(order[1..], answers, k - 1)
  }

  predicate Free(s: string, c: char) { forall k :: 0 <= k < |s| ==> s[k] != c }

  /** An object name holds no space and no line feed. */
  predicate Name(sha: string) { sha != "" && Free(sha, ' ') && Free(sha, '\n') }

  /** What the reader must hold for an object when `len` characters of its record and what follows have come. */
  function Expected(sha: string, a: Answer, len: int): Blob {
    var h := |Header(sha, a)|;
    if len <= h then NoRecord
    else
      match a
      case Missing => NotBlob(Header(sha, a))
      case Blob(content) =>
        if |content| > 5242880 then TooBig(|content|)
        else if len - h - 1 < |content| then Content(content[..len - h - 1])
        else Content(content)
  }

  // ---- the reader on a written stream, whole or cut short ----

  lemma {:induction false} LineFeedIs(s: string, at: nat, e: nat)
    requires at <= e <= |s| && (forall k :: at <= k < e ==> s[k] != '\n') && (e == |s| || s[e] == '\n')
    ensures LineFeed(s, at) == if e == |s| then None else Some(e)
    decreases e - at
  {
    if at < e { LineFeedIs(s, at + 1, e); }
  }

  lemma {:induction false} FirstField(a: string, rest: string)
    requires Free(a, ' ') && (rest == "" || rest[0] == ' ')
    ensures Fields(a + rest) == [a] + if rest == "" then [] else Fields(rest[1..])
  {
    if a == "" {
      assert a + rest == rest;
    } else {
      FirstField(a[1..], rest);
      assert (a + rest)[1..] == a[1..] + rest;
      assert [a[0]] + a[1..] == a;
    }
  }

  lemma MissingFields(sha: string)
    requires Name(sha)
    ensures Free(Header(sha, Missing), '\n') && Fields(Header(sha, Missing)) == [sha, "missing"]
  {
    MissingWord();
    hide Fields, Free;
    FirstField(sha, " missing");
    FreeCat(sha, " missing", '\n');
  }

  lemma MissingWord()
    ensures Free(" missing", '\n') && " missing"[0] == ' ' && " missing"[1..] == "missing"
    ensures Fields("missing") == ["missing"]
  {
    assert Free("missing", ' ');
    FirstField("missing", "");
    assert "missing" + "" == "missing";
  }

  lemma BlobFields(sha: string, content: string)
    requires Name(sha)
    ensures Free(Header(sha, Blob(content)), '\n')
    ensures Fields(Header(sha, Blob(content))) == [sha, "blob", Decimals.Print(|content|)]
    ensures SizeOf(Fields(Header(sha, Blob(content)))) == Some(|content|)
  {
    var n := Decimals.Print(|content|);
    Decimals.PrintValue(|content|);
    DigitsFree(n);
    ThreeFields(sha, n);
    BlobWordFree();
    hide Fields, Free, Decimals.Print, Decimals.Value, Decimals.AllDigits;
    FreeCat(" blob ", n, '\n');
    FreeCat(sha, " blob " + n, '\n');
    assert [sha, "blob", n][2] == n;
  }

  lemma FreeCat(a: string, b: string, c: char)
    requires Free(a, c) && Free(b, c)
    ensures Free(a + b, c)
  {}

  lemma BlobWordFree()
    ensures Free(" blob ", '\n')
  {}

  lemma DigitsFree(n: string)
    requires Decimals.AllDigits(n)
    ensures Free(n, ' ') && Free(n, '\n')
  {
    assert forall k :: 0 <= k < |n| ==> Decimals.IsDigit(n[k]);
  }

  lemma ThreeFields(sha: string, n: string)
    requires Free(sha, ' ') && Free(n, ' ')
    ensures Fields(sha + (" blob " + n)) == [sha, "blob", n]
  {
    FirstField(sha, " blob " + n);
    hide Fields;
    assert (" blob " + n)[1..] == "blob" + (" " + n);
    FirstField("blob", " " + n);
    assert (" " + n)[1..] == n;
    FirstField(n, "");
    assert n + "" == n;
  }

  lemma WrittenHeader(sha: string, a: Answer)
    requires Name(sha)
    ensures Free(Header(sha, a), '\n')
    ensures var fs := Fields(Header(sha, a));
            match a
            case Missing => |fs| == 2 && fs[1] == "missing"
            case Blob(content) => |fs| == 3 && fs[1] == "blob" && SizeOf(fs) == Some(|content|)
  {
    if a.Missing? { MissingFields(sha); } else { BlobFields(sha, a.content); }
  }

  /** The first `n` characters of a record and what follows it are there, from `at` to the end of the stream. */
  predicate Arrived(s: string, at: nat, t: string) {
    at <= |s| && |s| - at <= |t| && forall k :: at <= k < |s| ==> s[k] == t[k - at]
  }

  lemma HeaderArrived(s: string, at: nat, sha: string, a: Answer, rest: string)
    requires Name(sha) && Arrived(s, at, Record(sha, a) + rest)
    ensures var h := |Header(sha, a)|;
            if |s| - at <= h then LineFeed(s, at) == None
            else LineFeed(s, at) == Some(at + h) && s[at..at + h] == Header(sha, a)
  {
    WrittenHeader(sha, a);
    hide Fields, SizeOf;
    var header, h, t := Header(sha, a), |Header(sha, a)|, Record(sha, a) + rest;
    assert t == header + ("\n" + (Body(a) + rest));
    hide Header, Record;
    LineFeedIs(s, at, if |s| - at <= h then |s| else at + h);
  }

  lemma BodyArrived(s: string, at: nat, sha: string, content: string, rest: string)
    requires Arrived(s, at, Record(sha, Blob(content)) + rest) && |s| - at > |Header(sha, Blob(content))|
    ensures var h := |Header(sha, Blob(content))|;
            Clip(s, at + h + 1, |content|)
            == if |s| - at - h - 1 < |content| then content[..|s| - at - h - 1] else content
  {
    var t := Record(sha, Blob(content)) + rest;
    assert t == (Header(sha, Blob(content)) + "\n") + content + ("\n" + rest);
    Middle(s, at, Header(sha, Blob(content)) + "\n", content, "\n" + rest);
  }

  lemma Middle(s: string, at: nat, head: string, content: string, tail: string)
    requires Arrived(s, at, head + content + tail) && |s| - at >= |head|
    ensures Clip(s, at + |head|, |content|)
         == if |s| - at - |head| < |content| then content[..|s| - at - |head|] else content
  {
    var start := at + |head|;
    var m := if |s| - start < |content| then |s| - start else |content|;
    forall k | 0 <= k < m ensures s[start + k] == content[k] {
      assert s[start + k] == (head + content + tail)[|head| + k];
    }
    assert s[start..start + m] == content[..m];
  }

  /** One record, whole or cut short. */
  lemma ReadWritten(s: string, at: nat, sha: string, a: Answer, rest: string)
    requires Name(sha) && Arrived(s, at, Record(sha, a) + rest)
    ensures ReadRecord(s, at).0 == Expected(sha, a, |s| - at)
    ensures |s| - at > |Header(sha, a)| ==> ReadRecord(s, at).1 == at + |Record(sha, a)|
    ensures |s| - at <= |Header(sha, a)| ==> ReadRecord(s, at).1 == at
  {
    hide Fields, SizeOf, LineFeed, Clip, Header, Record, Arrived, Name, Free;
    RecordLength(sha, a);
    WrittenHeader(sha, a);
    HeaderArrived(s, at, sha, a, rest);
    if a.Blob? && |s| - at > |Header(sha, a)| {
      BodyArrived(s, at, sha, a.content, rest);
    }
  }

  lemma RecordLength(sha: string, a: Answer)
    ensures |Record(sha, a)| == |Header(sha, a)| + 1 + if a.Blob? then |a.content| + 1 else 0
  {}

  predicate Answers(order: seq<string>, answers: map<string, Answer>) {
    Distinct(order) && forall k :: 0 <= k < |order| ==> Name(order[k]) && order[k] in answers
  }

  /** Behind the last line feed every object is unknown. */
  lemma {:induction false} ReadBehindTheEnd(s: string, at: nat, order: seq<string>, k: nat)
    requires LineFeed(s, at) == None && Distinct(order) && k < |order|
    ensures order[k] in ReadFrom(s, at, order) && ReadFrom(s, at, order)[order[k]] == NoRecord
    decreases |order|
  {
    hide LineFeed;
    ReadKeys(s, at, order[1..]);
    if k > 0 {
      assert order[1..][k - 1] == order[k];
      ReadBehindTheEnd(s, at, order[1..], k - 1);
    } else {
      assert order[0] !in order[1..];
    }
  }

  lemma {:induction false} ReadArrived(s: string, at: nat, order: seq<string>, answers: map<string, Answer>, k: nat)
    requires Answers(order, answers) && k < |order| && Arrived(s, at, Stream(order, answers))
    ensures order[k] in ReadFrom(s, at, order)
    ensures ReadFrom(s, at, order)[order[k]]
         == Expected(order[k], answers[order[k]], |s| - at - Offset(order, answers, k))
    decreases |order|
  {
    hide Header, Record, Arrived, LineFeed, Name, ReadRecord;
    var sha, a, rest := order[0], answers[order[0]], order[1..];
    ReadWritten(s, at, sha, a, Stream(rest, answers));
    HeaderArrived(s, at, sha, a, Stream(rest, answers));
    RecordLength(sha, a);
    var next := ReadRecord(s, at).1;
    ReadKeys(s, next, rest);
    if k == 0 {
      assert order[0] !in rest;
    } else {
      assert rest[k - 1] == order[k];
      if |s| - at <= |Header(sha, a)| {
        ReadBehindTheEnd(s, next, rest, k - 1);
      } else if next > |s| {
        NothingBehind(s, next);
        ReadBehindTheEnd(s, next, rest, k - 1);
      } else {
        RestArrived(s, at, Record(sha, a), Stream(rest, answers));
        ReadArrived(s, next, rest, answers, k - 1);
      }
    }
  }

  lemma NothingBehind(s: string, at: nat)
    requires at > |s|
    ensures LineFeed(s, at) == None
  {}

  lemma RestArrived(s: string, at: nat, a: string, b: string)
    requires Arrived(s, at, a + b) && at + |a| <= |s|
    ensures Arrived(s, at + |a|, b)
  {
    forall k | at + |a| <= k < |s| ensures s[k] == b[k - at - |a|] {
      assert s[k] == (a + b)[k - at];
    }
  }

  /** On a stream cut after any number of characters every object is reported: with its own content when its whole
      record is there, with what has come of it when the cut is in its content, and as unknown otherwise. */
  lemma {:induction false} ReadCutStream(order: seq<string>, answers: map<string, Answer>, cut: nat, k: nat)
    requires Answers(order, answers) && k < |order| && cut <= |Stream(order, answers)|
    ensures var blobs := ReadFrom(Stream(order, answers)[..cut], 0, order);
            order[k] in blobs
            && blobs[order[k]] == Expected(order[k], answers[order[k]], cut - Offset(order, answers, k))
  {
    hide ReadFrom, Stream, Header, Offset, Distinct, Name;
    ReadArrived(Stream(order, answers)[..cut], 0, order, answers, k);
  }

  lemma {:induction false} OffsetInside(order: seq<string>, answers: map<string, Answer>, k: nat)
    requires Answers(order, answers) && k < |order|
    ensures Offset(order, answers, k) + |Record(order[k], answers[order[k]])| <= |Stream(order, answers)|
  {
    hide Record;
    if k > 0 { OffsetInside(order[1..], answers, k - 1); }
  }

  /** An answer of any other kind than a blob, a tree or a commit say, is reported by its header, and the reader goes on
      behind the header. */
  lemma OtherKind(s: string, at: nat, sha: string, kind: string, tail: string, rest: string)
    requires Name(sha) && kind != "blob" && Free(kind, ' ') && Free(kind, '\n')
    requires Free(tail, '\n') && (tail != "" ==> tail[0] == ' ')
    requires at <= |s| && s[at..] == sha + (" " + (kind + tail)) + ("\n" + rest)
    ensures var header := sha + (" " + (kind + tail));
            ReadRecord(s, at) == (NotBlob(header), at + |header| + 1)
  {
    var header := sha + (" " + (kind + tail));
    OtherFields(sha, kind, tail);
    HeaderIs(s, at, header, rest);
    hide Fields, LineFeed, SizeOf, Clip;
  }

  lemma OtherFields(sha: string, kind: string, tail: string)
    requires Name(sha) && Free(kind, ' ') && Free(kind, '\n')
    requires Free(tail, '\n') && (tail != "" ==> tail[0] == ' ')
    ensures var header := sha + (" " + (kind + tail));
            Free(header, '\n') && |Fields(header)| >= 2 && Fields(header)[1] == kind
  {
    FirstField(sha, " " + (kind + tail));
    assert (" " + (kind + tail))[1..] == kind + tail;
    FirstField(kind, tail);
    FreeCat(kind, tail, '\n');
    assert Free(" ", '\n');
    FreeCat(" ", kind + tail, '\n');
    FreeCat(sha, " " + (kind + tail), '\n');
    hide Fields, Free;
  }

  lemma HeaderIs(s: string, at: nat, header: string, rest: string)
    requires at <= |s| && s[at..] == header + ("\n" + rest) && Free(header, '\n')
    ensures LineFeed(s, at) == Some(at + |header|) && s[at..at + |header|] == header
  {
    forall k | at <= k < |s| ensures s[k] == (header + ("\n" + rest))[k - at] {
      assert s[k] == s[at..][k - at];
    }
    LineFeedIs(s, at, at + |header|);
    hide LineFeed;
  }

  /** What an entry must become: its own object's content, or the reason why there is none. */
  function Faithful(e: Entry, answers: map<string, Answer>): ScanInput
    requires e.sha != "" ==> e.sha in answers
  {
    if e.mode == "160000" then Unreadable(e.path, Gitlink)
    else if e.sha == "" then Unreadable(e.path, Unresolved)
    else
      match answers[e.sha]
      case Missing => Unreadable(e.path, Unread(NotBlob(Header(e.sha, Missing))))
      case Blob(content) =>
        if |content| > 5242880 then Unreadable(e.path, Unread(TooBig(|content|))) else Readable(e.path, content)
  }

  /** Reading inverts writing: every entry gets the content of its own object or the reason it has none, in the order
      of the entries, whatever the contents hold and however many entries share an object. */
  lemma {:induction false} ReadAllInvertsBatch(entries: seq<Entry>, answers: map<string, Answer>)
    requires Answers(Order(entries), answers)
    ensures forall k :: 0 <= k < |entries| && entries[k].sha != "" ==> entries[k].sha in answers
    ensures Inputs(entries, Stream(Order(entries), answers))
         == seq(|entries|, k requires 0 <= k < |entries| && (entries[k].sha != "" ==> entries[k].sha in answers)
                => Faithful(entries[k], answers))
  {
    forall k | 0 <= k < |entries| && entries[k].sha != ""
      ensures entries[k].sha in answers
      ensures InputOf(entries[k], ReadFrom(Stream(Order(entries), answers), 0, Order(entries)))
           == Faithful(entries[k], answers)
    {
      EntryFaithful(entries, answers, k);
    }
    hide ReadFrom, Stream, Order, Answers;
  }

  lemma EntryFaithful(entries: seq<Entry>, answers: map<string, Answer>, k: nat)
    requires Answers(Order(entries), answers) && k < |entries| && entries[k].sha != ""
    ensures entries[k].sha in answers
    ensures InputOf(entries[k], ReadFrom(Stream(Order(entries), answers), 0, Order(entries)))
         == Faithful(entries[k], answers)
  {
    hide ReadFrom, Stream, Header, Record;
    var order, sha := Order(entries), entries[k].sha;
    var out := Stream(order, answers);
    assert sha in order;
    var j :| 0 <= j < |order| && order[j] == sha;
    ReadCutStream(order, answers, |out|, j);
    assert out[..|out|] == out;
    OffsetInside(order, answers, j);
    RecordLength(sha, answers[sha]);
  }

  /** A cut inside a content goes unnoticed: exactly then a blob within the size limit is taken for a shorter one. */
  lemma {:induction false} CutContentPasses(order: seq<string>, answers: map<string, Answer>, cut: nat, k: nat)
    requires Answers(order, answers) && k < |order| && cut <= |Stream(order, answers)|
    requires answers[order[k]].Blob? && |answers[order[k]].content| <= 5242880
    ensures var blobs := ReadFrom(Stream(order, answers)[..cut], 0, order);
            var content, start := answers[order[k]].content,
                                  Offset(order, answers, k) + |Header(order[k], answers[order[k]])| + 1;
            order[k] in blobs
            && (blobs[order[k]].Content? && blobs[order[k]].text != content <==> start <= cut < start + |content|)
  {
    ReadCutStream(order, answers, cut, k);
  }
}
