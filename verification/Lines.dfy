/** A text as the list of its lines: cut at each line feed, and joined with one. */
module Lines {

  function Split(s: string): (lines: seq<string>)
    ensures lines != []
    ensures forall k :: 0 <= k < |lines| ==> FeedFree(lines[k])
  {
    if s == "" then [""]
    else
      var rest := Split(s[1..]);
      if s[0] == '\n' then [""] + rest else [[s[0]] + rest[0]] + rest[1..]
  }

  predicate FeedFree(s: string) { forall k :: 0 <= k < |s| ==> s[k] != '\n' }

  function Join(lines: seq<string>): string
    requires lines != []
  {
    if |lines| == 1 then lines[0] else lines[0] + ("\n" + Join(lines[1..]))
  }

  lemma {:induction false} SplitLine(a: string, rest: string)
    requires FeedFree(a)
    ensures Split(a + ("\n" + rest)) == [a] + Split(rest) && Split(a) == [a]
  {
    if a == "" {
      assert a + ("\n" + rest) == "\n" + rest && ("\n" + rest)[1..] == rest;
    } else {
      SplitLine(a[1..], rest);
      assert (a + ("\n" + rest))[1..] == a[1..] + ("\n" + rest);
      assert [a[0]] + a[1..] == a;
    }
  }

  lemma {:induction false} SplitJoin(lines: seq<string>)
    requires lines != [] && forall k :: 0 <= k < |lines| ==> FeedFree(lines[k])
    ensures Split(Join(lines)) == lines
  {
    if |lines| == 1 {
      SplitLine(lines[0], "");
    } else {
      SplitJoin(lines[1..]);
      SplitLine(lines[0], Join(lines[1..]));
    }
  }
}
