/** Parts of a text, and the white space at its ends. */
module Strings {

  predicate StartsWith(s: string, p: string) { |p| <= |s| && s[..|p|] == p }

  predicate EndsWith(s: string, p: string) { |p| <= |s| && s[|s| - |p|..] == p }

  predicate OccursAt(s: string, j: nat, p: string) { j + |p| <= |s| && s[j..j + |p|] == p }

  lemma CharOf(s: string, j: nat, p: string, k: nat)
    requires OccursAt(s, j, p) && k < |p|
    ensures s[j + k] == p[k]
  {
    assert s[j..j + |p|][k] == p[k];
  }

  predicate Contains(s: string, p: string) { exists j: nat :: j <= |s| && OccursAt(s, j, p) }

  /** The small letter of an ASCII capital. */
  function LowerChar(c: char): char { if 'A' <= c <= 'Z' then (c as int + 32) as char else c }

  /** What Python's str.split() and str.strip() take for white space. */
  predicate PySpace(c: char) {
    '\t' <= c <= '\r' || '\U{1C}' <= c <= ' ' || c == '\U{85}' || c == '\U{A0}' || c == '\U{1680}'
    || '\U{2000}' <= c <= '\U{200A}' || c == '\U{2028}' || c == '\U{2029}' || c == '\U{202F}' || c == '\U{205F}'
    || c == '\U{3000}'
  }

  function TrimLeft(space: char -> bool, s: string): string {
    if s != "" && space(s[0]) then TrimLeft(space, s[1..]) else s
  }

  function TrimRight(space: char -> bool, s: string): string {
    if s != "" && space(s[|s| - 1]) then TrimRight(space, s[..|s| - 1]) else s
  }

  /** The text without the white space at its ends, for the given notion of white space. */
  function Trim(space: char -> bool, s: string): string { TrimRight(space, TrimLeft(space, s)) }

  predicate Blank(space: char -> bool, s: string) { forall k :: 0 <= k < |s| ==> space(s[k]) }

  /** What is trimmed at the left is the white space in front of the first other character, and nothing else. */
  lemma {:induction false} TrimLeftOff(space: char -> bool, a: string, t: string)
    requires Blank(space, a) && (t != "" ==> !space(t[0]))
    ensures TrimLeft(space, a + t) == t
  {
    if a == "" {
      assert a + t == t;
    } else {
      assert (a + t)[1..] == a[1..] + t;
      TrimLeftOff(space, a[1..], t);
    }
  }

  lemma {:induction false} TrimLeftIs(space: char -> bool, s: string) returns (a: string)
    ensures Blank(space, a) && s == a + TrimLeft(space, s)
    ensures TrimLeft(space, s) != "" ==> !space(TrimLeft(space, s)[0])
  {
    if s != "" && space(s[0]) {
      a := TrimLeftIs(space, s[1..]);
      a := [s[0]] + a;
    } else {
      a := "";
    }
  }

  lemma {:induction false} TrimRightOff(space: char -> bool, t: string, b: string)
    requires Blank(space, b) && (t != "" ==> !space(t[|t| - 1]))
    ensures TrimRight(space, t + b) == t
  {
    if b == "" {
      assert t + b == t;
    } else {
      assert (t + b)[..|t + b| - 1] == t + b[..|b| - 1];
      TrimRightOff(space, t, b[..|b| - 1]);
    }
  }

  /** A text between white space, if it neither starts nor ends with any, is what trimming leaves. */
  lemma TrimBetween(space: char -> bool, a: string, t: string, b: string)
    requires Blank(space, a) && Blank(space, b) && (t != "" ==> !space(t[0]) && !space(t[|t| - 1]))
    ensures Trim(space, a + t + b) == t
  {
    if t != "" {
      assert a + t + b == a + (t + b);
      TrimLeftOff(space, a, t + b);
    } else {
      assert a + t + b == (a + b) + "";
      TrimLeftOff(space, a + b, "");
    }
    TrimRightOff(space, t, if t == "" then "" else b);
  }
}
