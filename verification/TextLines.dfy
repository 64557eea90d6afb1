/** Texts cut into lines the way Python's str.splitlines(keepends=True) cuts them. */
module TextLines {

  /** What splitlines breaks a line at. */
  predicate IsBreak(c: char) {
    c == '\n' || c == '\U{0B}' || c == '\U{0C}' || c == '\r' || c == '\U{1C}' || c == '\U{1D}' || c == '\U{1E}'
    || c == '\U{85}' || c == '\U{2028}' || c == '\U{2029}'
  }

  predicate BreakFree(s: string) { forall k :: 0 <= k < |s| ==> !IsBreak(s[k]) }

  /** Where the line that position `j` is in ends, its break included; a \r\n is one break. */
  function PieceEnd(t: string, j: nat): (e: nat)
    requires j < |t|
    ensures j < e <= |t|
    decreases |t| - j
  {
    if t[j] == '\r' && j + 1 < |t| && t[j + 1] == '\n' then j + 2
    else if IsBreak(t[j]) || j + 1 == |t| then j + 1
    else PieceEnd(t, j + 1)
  }

  /** A line ends with its break, or with the text. */
  lemma {:induction false} PieceEnds(t: string, j: nat)
    requires j < |t|
    ensures PieceEnd(t, j) == |t| || IsBreak(t[PieceEnd(t, j) - 1])
    decreases |t| - j
  {
    if !IsBreak(t[j]) && j + 1 < |t| { PieceEnds(t, j + 1); }
  }

  function FirstPiece(t: string): string
    requires t != ""
  {
    t[..PieceEnd(t, 0)]
  }

  function OtherPieces(t: string): string
    requires t != ""
  {
    t[PieceEnd(t, 0)..]
  }

  /** The text ends a line: it is empty or its last character is a line feed. */
  predicate Closed(t: string) { t != "" ==> t[|t| - 1] == '\n' }

  lemma {:induction false} PieceEndCat(a: string, b: string, j: nat)
    requires Closed(a) && j < |a|
    ensures PieceEnd(a + b, j) == PieceEnd(a, j)
    decreases |a| - j
  {
    assert forall k :: 0 <= k < |a| ==> (a + b)[k] == a[k];
    if j + 1 < |a| && !IsBreak(a[j]) { PieceEndCat(a, b, j + 1); }
  }

  /** Behind a closed text the lines start afresh. */
  lemma FirstPieceCat(a: string, b: string)
    requires Closed(a) && a != ""
    ensures FirstPiece(a + b) == FirstPiece(a) && OtherPieces(a + b) == OtherPieces(a) + b
    ensures Closed(OtherPieces(a))
  {
    PieceEndCat(a, b, 0);
  }

  lemma {:induction false} OneLineEnd(s: string, j: nat)
    requires BreakFree(s) && j <= |s|
    ensures PieceEnd(s + "\n", j) == |s| + 1
    decreases |s| - j
  {
    if j < |s| {
      assert (s + "\n")[j] == s[j];
      OneLineEnd(s, j + 1);
    }
  }

  lemma OneLine(s: string)
    requires BreakFree(s)
    ensures s + "\n" != "" && FirstPiece(s + "\n") == s + "\n" && OtherPieces(s + "\n") == ""
  {
    OneLineEnd(s, 0);
  }

  /** A text without the line feeds it ends with (Python's rstrip("\n")). */
  function Chop(s: string): string {
    if s != "" && s[|s| - 1] == '\n' then Chop(s[..|s| - 1]) else s
  }

  lemma ChopLine(s: string)
    requires s == "" || s[|s| - 1] != '\n'
    ensures Chop(s + "\n") == s
  {
    assert (s + "\n")[..|s|] == s;
  }
}
