/** `decide` of store/readme-bullet-union.py: the three-way union of a README to which both sides added bullets.

    The decision is made on lines. It resolves exactly when both sides are one text with one block inserted at the same
    point, that text is the base up to filler lines, and both blocks are bullets. */
module ReadmeUnion {
  import opened Lines
  import opened Strings

  const ALLOWED_FILE: string := "README.md"

  const ENTRY_PREFIX: string := "- **"

  datatype Reason = NotAllowed | OneSideAddedNothing | SurroundTouched | NonBullet

  datatype Decision = Refused(reason: Reason) | Resolved(union: seq<string>)

  datatype Answer = No(reason: Reason) | Yes(text: string)

  // ---- lines ----

  predicate Filler(space: char -> bool, s: string) { Trim(space, s) in ["", "---", "***", "___"] }

  function NonFiller(space: char -> bool, lines: seq<string>): seq<string> {
    if lines == [] then []
    else
      var last := lines[|lines| - 1];
      NonFiller(space, lines[..|lines| - 1]) + if Filler(space, last) then [] else [last]
  }

  predicate BulletOrBlank(space: char -> bool, s: string) { Trim(space, s) == "" || ENTRY_PREFIX <= s }

  predicate Bullets(space: char -> bool, lines: seq<string>) {
    forall k :: 0 <= k < |lines| ==> BulletOrBlank(space, lines[k])
  }

  // ---- the decision ----

  function PrefixLen(a: seq<string>, b: seq<string>, n: nat): (r: nat)
    requires n <= |a| && n <= |b|
    ensures n <= r <= |a| && r <= |b|
    decreases |a| - n
  {
    if n < |a| && n < |b| && a[n] == b[n] then PrefixLen(a, b, n + 1) else n
  }

  /** The lines `k` before the last are the same. */
  predicate SameBack(a: seq<string>, b: seq<string>, k: nat) {
    k < |a| && k < |b| && a[|a| - 1 - k] == b[|b| - 1 - k]
  }

  function SuffixLen(a: seq<string>, b: seq<string>, floor: nat, n: nat): (r: nat)
    requires floor + n <= |a| && floor + n <= |b|
    ensures n <= r && floor + r <= |a| && floor + r <= |b|
    decreases |a| - n
  {
    if n < |a| - floor && n < |b| - floor && SameBack(a, b, n) then SuffixLen(a, b, floor, n + 1) else n
  }

  function Decide(space: char -> bool, base: seq<string>, ours: seq<string>, theirs: seq<string>): (d: Decision)
    ensures d.Resolved? ==> d.union != []
  {
    var p := PrefixLen(ours, theirs, 0);
    var s := SuffixLen(ours, theirs, p, 0);
    var oursMid, theirsMid := ours[p..|ours| - s], theirs[p..|theirs| - s];
    var surround := ours[..p] + ours[|ours| - s..];
    if oursMid == [] || theirsMid == [] then Refused(OneSideAddedNothing)
    else if surround != base && NonFiller(space, surround) != NonFiller(space, base) then Refused(SurroundTouched)
    else if !Bullets(space, oursMid) || !Bullets(space, theirsMid) then Refused(NonBullet)
    else Resolved(ours[..p] + oursMid + theirsMid + ours[|ours| - s..])
  }

  function DecideText(space: char -> bool, base: string, ours: string, theirs: string, name: string): Answer {
    if name != ALLOWED_FILE then No(NotAllowed)
    else
      match Decide(space, Split(base), Split(ours), Split(theirs))
      case Refused(reason) => No(reason)
      case Resolved(union) => Yes(Join(union))
  }

  method CommonPrefixLen(a: seq<string>, b: seq<string>) returns (n: nat)
    ensures n == PrefixLen(a, b, 0)
  {
    n := 0;
    while n < |a| && n < |b| && a[n] == b[n]
      invariant n <= |a| && n <= |b| && PrefixLen(a, b, n) == PrefixLen(a, b, 0)
    {
      n := n + 1;
    }
  }

  method CommonSuffixLen(a: seq<string>, b: seq<string>, floor: nat) returns (n: nat)
    requires floor <= |a| && floor <= |b|
    ensures n == SuffixLen(a, b, floor, 0)
  {
    n := 0;
    while n < |a| - floor && n < |b| - floor && SameBack(a, b, n)
      invariant floor + n <= |a| && floor + n <= |b| && SuffixLen(a, b, floor, n) == SuffixLen(a, b, floor, 0)
    {
      n := n + 1;
    }
  }

  method OnlyBullets(space: char -> bool, mid: seq<string>) returns (ok: bool)
    ensures ok == Bullets(space, mid)
  {
    for k := 0 to |mid|
      invariant Bullets(space, mid[..k])
    {
      if !BulletOrBlank(space, mid[k]) {
        assert !Bullets(space, mid);
        return false;
      }
      assert mid[..k + 1] == mid[..k] + [mid[k]];
    }
    assert mid[..|mid|] == mid;
    ok := true;
  }

  method DecideLines(space: char -> bool, b: seq<string>, o: seq<string>, t: seq<string>) returns (d: Decision)
    ensures d == Decide(space, b, o, t)
  {
    hide PrefixLen, SuffixLen, NonFiller, Bullets;
    var p := CommonPrefixLen(o, t);
    var s := CommonSuffixLen(o, t, p);
    var oursMid, theirsMid := o[p..|o| - s], t[p..|t| - s];
    if oursMid == [] || theirsMid == [] {
      return Refused(OneSideAddedNothing);
    }
    var surround := o[..p] + o[|o| - s..];
    if surround != b && NonFiller(space, surround) != NonFiller(space, b) {
      return Refused(SurroundTouched);
    }
    var ok := OnlyBullets(space, oursMid);
    if ok {
      ok := OnlyBullets(space, theirsMid);
    }
    if !ok {
      return Refused(NonBullet);
    }
    d := Resolved(o[..p] + oursMid + theirsMid + o[|o| - s..]);
  }

  /** decide. */
  method DecideFile(space: char -> bool, base: string, ours: string, theirs: string, name: string) returns (r: Answer)
    ensures r == DecideText(space, base, ours, theirs, name)
  {
    if name != ALLOWED_FILE {
      return No(NotAllowed);
    }
    hide Decide, Split, Join;
    var d := DecideLines(space, Split(base), Split(ours), Split(theirs));
    match d
    case Refused(reason) => r := No(reason);
    case Resolved(union) => r := Yes(Join(union));
  }

  // ---- the words of the decision ----

  /** Both sides are `w` with one block inserted at `p`; the blocks share neither end. */
  ghost predicate BothInserted(w: seq<string>, ours: seq<string>, theirs: seq<string>, p: nat, x: seq<string>,
                               y: seq<string>)
  {
    && p <= |w| && ours == w[..p] + x + w[p..] && theirs == w[..p] + y + w[p..]
    && x != [] && y != [] && x[0] != y[0] && x[|x| - 1] != y[|y| - 1]
  }

  /** Each line is blank or starts a bullet. */
  ghost predicate AllBullets(space: char -> bool, lines: seq<string>) {
    forall k :: 0 <= k < |lines| ==> Trim(space, lines[k]) == "" || "- **" <= lines[k]
  }

  /** The places of the lines that are neither blank nor a rule. */
  ghost predicate Places(space: char -> bool, lines: seq<string>, at: seq<nat>) {
    && (forall i, j :: 0 <= i < j < |at| ==> at[i] < at[j])
    && (forall i :: 0 <= i < |at| ==> at[i] < |lines|)
    && (forall k: nat :: k < |lines| ==>
          var s := Trim(space, lines[k]); k in at <==> s != "" && s != "---" && s != "***" && s != "___")
  }

  ghost predicate SameAt(a: seq<string>, at: seq<nat>, b: seq<string>, bt: seq<nat>)
    requires (forall i :: 0 <= i < |at| ==> at[i] < |a|) && (forall i :: 0 <= i < |bt| ==> bt[i] < |b|)
  {
    |at| == |bt| && forall i :: 0 <= i < |at| ==> a[at[i]] == b[bt[i]]
  }

  /** Leaving out blank lines and rules, the two texts are the same line by line. */
  ghost predicate SameButFiller(space: char -> bool, a: seq<string>, b: seq<string>) {
    exists at, bt :: Places(space, a, at) && Places(space, b, bt) && SameAt(a, at, b, bt)
  }

  function LinesAt(lines: seq<string>, at: seq<nat>): seq<string>
    requires forall i :: 0 <= i < |at| ==> at[i] < |lines|
  {
    seq(|at|, i requires 0 <= i < |at| => lines[at[i]])
  }

  /** The last line is the last place, unless it is filler. */
  lemma PlacesLast(space: char -> bool, lines: seq<string>, at: seq<nat>)
    requires Places(space, lines, at) && lines != [] && !Filler(space, lines[|lines| - 1])
    ensures at != [] && at[|at| - 1] == |lines| - 1
    ensures forall k :: k in at <==> k in at[..|at| - 1] || k == |lines| - 1
  {
    hide Trim;
    var n, m := |lines| - 1, |at| - 1;
    assert n in at;
    var i :| 0 <= i < |at| && at[i] == n;
    assert i < m ==> at[i] < at[m];
    assert at == at[..m] + [at[m]];
  }

  lemma PlacesBefore(space: char -> bool, lines: seq<string>, at: seq<nat>, before: seq<nat>)
    requires Places(space, lines, at) && lines != [] && before <= at
    requires forall k :: k < |lines| - 1 ==> (k in before <==> k in at)
    requires |lines| - 1 !in before
    ensures Places(space, lines[..|lines| - 1], before)
    ensures forall i :: 0 <= i < |before| ==> before[i] < |lines| - 1
    ensures LinesAt(lines[..|lines| - 1], before) == LinesAt(lines, at)[..|before|]
  {
    hide Trim;
    forall i | 0 <= i < |before| ensures before[i] < |lines| - 1 {
      assert before[i] in before && before[i] == at[i];
    }
  }

  lemma FirstPlace(space: char -> bool, lines: seq<string>, at: seq<nat>)
    requires Places(space, lines, at)
    ensures at != [] ==> at[0] < |lines|
  {}

  lemma {:induction false} NonFillerAt(space: char -> bool, lines: seq<string>, at: seq<nat>)
    requires Places(space, lines, at)
    ensures forall i :: 0 <= i < |at| ==> at[i] < |lines|
    ensures NonFiller(space, lines) == LinesAt(lines, at)
  {
    hide Trim;
    if lines != [] {
      var n := |lines| - 1;
      if Filler(space, lines[n]) {
        PlacesBefore(space, lines, at, at);
        NonFillerAt(space, lines[..n], at);
        assert LinesAt(lines, at)[..|at|] + [] == LinesAt(lines, at);
      } else {
        var before := at[..|at| - 1];
        PlacesLast(space, lines, at);
        PlacesBefore(space, lines, at, before);
        NonFillerAt(space, lines[..n], before);
        assert LinesAt(lines, at) == LinesAt(lines, at)[..|before|] + [lines[n]];
      }
    } else {
      FirstPlace(space, lines, at);
    }
  }

  lemma {:induction false} PlacesExist(space: char -> bool, lines: seq<string>) returns (at: seq<nat>)
    ensures Places(space, lines, at)
  {
    hide Trim;
    if lines == [] {
      at := [];
    } else {
      var n := |lines| - 1;
      at := PlacesExist(space, lines[..n]);
      if !Filler(space, lines[n]) {
        at := at + [n];
      }
    }
  }

  lemma SameLinesAt(a: seq<string>, at: seq<nat>, b: seq<string>, bt: seq<nat>)
    requires (forall i :: 0 <= i < |at| ==> at[i] < |a|) && (forall i :: 0 <= i < |bt| ==> bt[i] < |b|)
    ensures SameAt(a, at, b, bt) <==> LinesAt(a, at) == LinesAt(b, bt)
  {
    var x, y := LinesAt(a, at), LinesAt(b, bt);
    assert forall i :: 0 <= i < |at| ==> x[i] == a[at[i]];
    assert forall i :: 0 <= i < |bt| ==> y[i] == b[bt[i]];
  }

  lemma SameNonFiller(space: char -> bool, a: seq<string>, b: seq<string>)
    ensures NonFiller(space, a) == NonFiller(space, b) <==> SameButFiller(space, a, b)
  {
    var at := PlacesExist(space, a);
    var bt := PlacesExist(space, b);
    NonFillerAt(space, a, at);
    NonFillerAt(space, b, bt);
    SameLinesAt(a, at, b, bt);
    hide Places, NonFiller, LinesAt, SameAt;
    if SameButFiller(space, a, b) {
      var cs, ds := PlacesOf(space, a, b);
      NonFillerAt(space, a, cs);
      NonFillerAt(space, b, ds);
      SameLinesAt(a, cs, b, ds);
    } else if SameAt(a, at, b, bt) {
      SameIs(space, a, at, b, bt);
    }
  }

  lemma PlacesOf(space: char -> bool, a: seq<string>, b: seq<string>) returns (at: seq<nat>, bt: seq<nat>)
    requires SameButFiller(space, a, b)
    ensures Places(space, a, at) && Places(space, b, bt)
    ensures (forall i :: 0 <= i < |at| ==> at[i] < |a|) && (forall i :: 0 <= i < |bt| ==> bt[i] < |b|)
    ensures SameAt(a, at, b, bt)
  {
    hide Trim;
    at, bt :| Places(space, a, at) && Places(space, b, bt) && SameAt(a, at, b, bt);
  }

  lemma SameIs(space: char -> bool, a: seq<string>, at: seq<nat>, b: seq<string>, bt: seq<nat>)
    requires Places(space, a, at) && Places(space, b, bt)
    requires (forall i :: 0 <= i < |at| ==> at[i] < |a|) && (forall i :: 0 <= i < |bt| ==> bt[i] < |b|)
    requires SameAt(a, at, b, bt)
    ensures SameButFiller(space, a, b)
  {
    hide Trim;
  }

  // ---- what a decision means ----

  lemma {:induction false} PrefixLenIs(a: seq<string>, b: seq<string>, n: nat, r: nat)
    requires n <= r <= |a| && r <= |b| && (forall k :: n <= k < r ==> a[k] == b[k])
    requires r == |a| || r == |b| || a[r] != b[r]
    ensures PrefixLen(a, b, n) == r
    decreases r - n
  {
    if n < r { PrefixLenIs(a, b, n + 1, r); }
  }

  lemma {:induction false} SuffixLenIs(a: seq<string>, b: seq<string>, floor: nat, n: nat, r: nat)
    requires n <= r && floor + r <= |a| && floor + r <= |b|
    requires forall k :: n <= k < r ==> SameBack(a, b, k)
    requires r == |a| - floor || r == |b| - floor || !SameBack(a, b, r)
    ensures SuffixLen(a, b, floor, n) == r
    decreases r - n
  {
    if n < r { SuffixLenIs(a, b, floor, n + 1, r); }
  }

  lemma {:induction false} PrefixLenMeans(a: seq<string>, b: seq<string>, n: nat)
    requires n <= |a| && n <= |b|
    ensures var r := PrefixLen(a, b, n);
            && (forall k :: n <= k < r ==> a[k] == b[k])
            && (r < |a| && r < |b| ==> a[r] != b[r])
    decreases |a| - n
  {
    if n < |a| && n < |b| && a[n] == b[n] { PrefixLenMeans(a, b, n + 1); }
  }

  lemma {:induction false} SuffixLenMeans(a: seq<string>, b: seq<string>, floor: nat, n: nat)
    requires floor + n <= |a| && floor + n <= |b|
    ensures var r := SuffixLen(a, b, floor, n);
            && (forall k :: n <= k < r ==> SameBack(a, b, k))
            && (r < |a| - floor && r < |b| - floor ==> !SameBack(a, b, r))
    decreases |a| - n
  {
    if n < |a| - floor && n < |b| - floor && SameBack(a, b, n) { SuffixLenMeans(a, b, floor, n + 1); }
  }

  /** What is decided of a text with one block inserted at the same point on each side. */
  lemma InsertedDecides(space: char -> bool, base: seq<string>, ours: seq<string>, theirs: seq<string>,
                        w: seq<string>, p: nat, x: seq<string>, y: seq<string>)
    requires BothInserted(w, ours, theirs, p, x, y)
    ensures Decide(space, base, ours, theirs)
         == if !SameButFiller(space, w, base) then Refused(SurroundTouched)
            else if !AllBullets(space, x) || !AllBullets(space, y) then Refused(NonBullet)
            else Resolved(w[..p] + x + y + w[p..])
  {
    hide NonFiller, SameBack, SameButFiller, Trim;
    SameNonFiller(space, w, base);
    BulletsAre(space, x);
    BulletsAre(space, y);
    hide Bullets, AllBullets;
    PrefixLenIs(ours, theirs, 0, p);
    var s := |w| - p;
    InsertedBack(w, ours, theirs, p, x, y);
    SuffixLenIs(ours, theirs, p, 0, s);
    InsertedCuts(w, ours, p, x);
    InsertedCuts(w, theirs, p, y);
    hide PrefixLen, SuffixLen;
  }

  lemma BulletsAre(space: char -> bool, lines: seq<string>)
    ensures Bullets(space, lines) <==> AllBullets(space, lines)
  {
    hide Trim;
  }

  lemma InsertedCuts(w: seq<string>, side: seq<string>, p: nat, x: seq<string>)
    requires p <= |w| && side == w[..p] + x + w[p..]
    ensures var s := |w| - p;
            && side[..p] == w[..p] && side[p..|side| - s] == x && side[|side| - s..] == w[p..]
            && side[..p] + side[|side| - s..] == w
  {
    assert w[..p] + w[p..] == w;
  }

  lemma InsertedBack(w: seq<string>, ours: seq<string>, theirs: seq<string>, p: nat, x: seq<string>, y: seq<string>)
    requires p <= |w| && ours == w[..p] + x + w[p..] && theirs == w[..p] + y + w[p..]
    requires x != [] && y != [] && x[|x| - 1] != y[|y| - 1]
    ensures forall k :: 0 <= k < |w| - p ==> SameBack(ours, theirs, k)
    ensures !SameBack(ours, theirs, |w| - p)
  {
    var s := |w| - p;
    assert ours[|ours| - 1 - s] == x[|x| - 1] && theirs[|theirs| - 1 - s] == y[|y| - 1];
    forall k | 0 <= k < s ensures SameBack(ours, theirs, k) {
      assert ours[|ours| - 1 - k] == w[|w| - 1 - k] == theirs[|theirs| - 1 - k];
    }
  }

  /** The parts the two lengths cut out. */
  lemma PartsMean(o: seq<string>, t: seq<string>, p: nat, s: nat, x: seq<string>, y: seq<string>)
    requires p == PrefixLen(o, t, 0) && s == SuffixLen(o, t, p, 0)
    requires x == o[p..|o| - s] && y == t[p..|t| - s] && x != [] && y != []
    ensures x[0] != y[0] && x[|x| - 1] != y[|y| - 1]
    ensures o == o[..p] + x + o[|o| - s..] && t == o[..p] + y + o[|o| - s..]
  {
    hide PrefixLen, SuffixLen;
    LensMean(o, t, p, s);
    assert x[0] == o[p] && y[0] == t[p];
    assert x[|x| - 1] == o[|o| - 1 - s] && y[|y| - 1] == t[|t| - 1 - s];
    Middle(o, o[..p], o[|o| - s..], p, s);
    Middle(t, o[..p], o[|o| - s..], p, s);
  }

  lemma LensMean(o: seq<string>, t: seq<string>, p: nat, s: nat)
    requires p == PrefixLen(o, t, 0) && s == SuffixLen(o, t, p, 0) && p + s < |o| && p + s < |t|
    ensures o[..p] == t[..p] && o[|o| - s..] == t[|t| - s..]
    ensures o[p] != t[p] && o[|o| - 1 - s] != t[|t| - 1 - s]
  {
    PrefixLenMeans(o, t, 0);
    SuffixLenMeans(o, t, p, 0);
    hide PrefixLen, SuffixLen;
    SameEnds(o, t, p, s);
  }

  /** Unless one side added nothing, the two sides are such a text. */
  lemma SidesAreInserted(space: char -> bool, base: seq<string>, ours: seq<string>, theirs: seq<string>)
    returns (w: seq<string>, p: nat, x: seq<string>, y: seq<string>)
    requires Decide(space, base, ours, theirs) != Refused(OneSideAddedNothing)
    ensures BothInserted(w, ours, theirs, p, x, y)
  {
    hide PrefixLen, SuffixLen, NonFiller, Bullets;
    p := PrefixLen(ours, theirs, 0);
    var s := SuffixLen(ours, theirs, p, 0);
    w, x, y := ours[..p] + ours[|ours| - s..], ours[p..|ours| - s], theirs[p..|theirs| - s];
    PartsMean(ours, theirs, p, s, x, y);
    assert w[..p] == ours[..p] && w[p..] == ours[|ours| - s..];
  }

  lemma Middle(side: seq<string>, head: seq<string>, tail: seq<string>, p: nat, s: nat)
    requires p + s <= |side| && side[..p] == head && side[|side| - s..] == tail
    ensures side == head + side[p..|side| - s] + tail
  {}

  lemma BackTail(a: seq<string>, b: seq<string>, s: nat)
    requires s <= |a| && s <= |b| && forall k :: 0 <= k < s ==> SameBack(a, b, k)
    ensures a[|a| - s..] == b[|b| - s..]
  {
    var at, bt := a[|a| - s..], b[|b| - s..];
    forall k | 0 <= k < s ensures at[k] == bt[k] {
      assert SameBack(a, b, s - 1 - k);
    }
  }

  lemma SameEnds(a: seq<string>, b: seq<string>, p: nat, s: nat)
    requires p + s < |a| && p + s < |b|
    requires forall k :: 0 <= k < p ==> a[k] == b[k]
    requires forall k :: 0 <= k < s ==> SameBack(a, b, k)
    ensures a[..p] == b[..p] && a[|a| - s..] == b[|b| - s..]
    ensures a[p..|a| - s][|a| - s - p - 1] == a[|a| - 1 - s] && b[p..|b| - s][|b| - s - p - 1] == b[|b| - 1 - s]
    ensures !SameBack(a, b, s) <==> a[|a| - 1 - s] != b[|b| - 1 - s]
  {
    BackTail(a, b, s);
  }

  /** The decision, exactly: it resolves to `u` if and only if both sides are one text `w` with one block of bullets
      inserted at the same point, `w` is the base up to filler lines, and `u` is `w` with both blocks there. */
  lemma {:induction false} DecideExactly(space: char -> bool, base: seq<string>, ours: seq<string>,
                                         theirs: seq<string>, u: seq<string>)
    ensures Decide(space, base, ours, theirs) == Resolved(u)
      <==> exists w, p, x, y :: BothInserted(w, ours, theirs, p, x, y) && SameButFiller(space, w, base)
             && AllBullets(space, x) && AllBullets(space, y) && u == w[..p] + x + y + w[p..]
  {
    hide Decide, SameButFiller, AllBullets;
    if Decide(space, base, ours, theirs) == Resolved(u) {
      var w, p, x, y := SidesAreInserted(space, base, ours, theirs);
      InsertedDecides(space, base, ours, theirs, w, p, x, y);
    }
    forall w, p: nat, x, y | BothInserted(w, ours, theirs, p, x, y)
      ensures Decide(space, base, ours, theirs)
           == if !SameButFiller(space, w, base) then Refused(SurroundTouched)
              else if !AllBullets(space, x) || !AllBullets(space, y) then Refused(NonBullet)
              else Resolved(w[..p] + x + y + w[p..])
    {
      InsertedDecides(space, base, ours, theirs, w, p, x, y);
    }
  }

  /** `more` is `less` with one block put in at `p`, which may be empty. */
  ghost predicate ExtendsAt(less: seq<string>, more: seq<string>, p: nat) {
    && p <= |less| <= |more|
    && less[..p] == more[..p] && less[p..] == more[|more| - (|less| - p)..]
  }

  ghost predicate Extends(less: seq<string>, more: seq<string>) { exists p: nat :: ExtendsAt(less, more, p) }

  lemma NothingAdded(o: seq<string>, t: seq<string>, p: nat, s: nat)
    requires p == PrefixLen(o, t, 0) && s == SuffixLen(o, t, p, 0)
    ensures p + s == |o| ==> Extends(o, t)
    ensures p + s == |t| ==> Extends(t, o)
  {
    PrefixLenMeans(o, t, 0);
    SuffixLenMeans(o, t, p, 0);
    hide PrefixLen, SuffixLen;
    BackTail(o, t, s);
    assert p + s == |o| ==> ExtendsAt(o, t, p);
    assert p + s == |t| ==> ExtendsAt(t, o, p);
  }

  lemma ExtendedSame(less: seq<string>, more: seq<string>, p: nat)
    requires ExtendsAt(less, more, p)
    ensures forall k :: 0 <= k < p ==> less[k] == more[k]
    ensures forall k :: 0 <= k < |less| - p ==> SameBack(less, more, k) && SameBack(more, less, k)
  {
    assert forall k :: 0 <= k < p ==> less[k] == less[..p][k] && more[k] == more[..p][k];
    forall k | 0 <= k < |less| - p ensures SameBack(less, more, k) {
      assert less[p..][|less| - p - 1 - k] == less[|less| - 1 - k];
    }
  }

  lemma ExtendsLens(o: seq<string>, t: seq<string>)
    ensures var p := PrefixLen(o, t, 0);
            var s := SuffixLen(o, t, p, 0);
            && (Extends(o, t) ==> p + s == |o|) && (Extends(t, o) ==> p + s == |t|)
  {
    var p := PrefixLen(o, t, 0);
    PrefixLenMeans(o, t, 0);
    SuffixLenMeans(o, t, p, 0);
    hide PrefixLen, SuffixLen, ExtendsAt, SameBack;
    if q: nat :| ExtendsAt(o, t, q) { ExtendedSame(o, t, q); }
    if q: nat :| ExtendsAt(t, o, q) { ExtendedSame(t, o, q); }
  }

  /** And each refusal names what is wrong: one side added nothing exactly if one side is the other with a block put in,
      or with none; otherwise the sides are one text with a block each, and the text is not the base, or it is and some
      line of a block is no bullet. */
  lemma {:induction false} RefusedExactly(space: char -> bool, base: seq<string>, ours: seq<string>,
                                          theirs: seq<string>, reason: Reason)
    ensures Decide(space, base, ours, theirs) == Refused(reason)
       <==> match reason
            case NotAllowed => false
            case OneSideAddedNothing => Extends(ours, theirs) || Extends(theirs, ours)
            case SurroundTouched =>
              exists w, p, x, y :: BothInserted(w, ours, theirs, p, x, y) && !SameButFiller(space, w, base)
            case NonBullet =>
              exists w, p, x, y :: BothInserted(w, ours, theirs, p, x, y) && SameButFiller(space, w, base)
                                   && !(AllBullets(space, x) && AllBullets(space, y))
  {
    OneSideExactly(space, base, ours, theirs);
    hide Decide, SameButFiller, AllBullets, Extends;
    forall w, p: nat, x, y | BothInserted(w, ours, theirs, p, x, y)
      ensures Decide(space, base, ours, theirs)
           == if !SameButFiller(space, w, base) then Refused(SurroundTouched)
              else if !AllBullets(space, x) || !AllBullets(space, y) then Refused(NonBullet)
              else Resolved(w[..p] + x + y + w[p..])
    {
      InsertedDecides(space, base, ours, theirs, w, p, x, y);
    }
    if Decide(space, base, ours, theirs) != Refused(OneSideAddedNothing) {
      var w, p, x, y := SidesAreInserted(space, base, ours, theirs);
    }
  }

  lemma OneSideExactly(space: char -> bool, base: seq<string>, ours: seq<string>, theirs: seq<string>)
    ensures Decide(space, base, ours, theirs) == Refused(OneSideAddedNothing)
       <==> Extends(ours, theirs) || Extends(theirs, ours)
  {
    var p := PrefixLen(ours, theirs, 0);
    NothingAdded(ours, theirs, p, SuffixLen(ours, theirs, p, 0));
    ExtendsLens(ours, theirs);
    hide PrefixLen, SuffixLen, Extends, NonFiller, Bullets;
  }

  /** The file decision, exactly: the one file it may touch, and the decision on the lines. */
  lemma {:induction false} FileExactly(space: char -> bool, base: string, ours: string, theirs: string, name: string,
                                       text: string)
    ensures DecideText(space, base, ours, theirs, name) == Yes(text)
       <==> name == "README.md"
            && exists u: seq<string> ::
                 u != [] && Decide(space, Split(base), Split(ours), Split(theirs)) == Resolved(u) && text == Join(u)
  {
    hide Decide, Split, Join;
  }

  lemma InsertedFits(w: seq<string>, ours: seq<string>, theirs: seq<string>, p: nat, x: seq<string>, y: seq<string>)
    requires BothInserted(w, ours, theirs, p, x, y)
    ensures p <= |w| && BothInserted(w, theirs, ours, p, y, x)
    ensures multiset(w[..p] + x + y + w[p..]) + multiset(w) == multiset(ours) + multiset(theirs)
  {
    assert w == w[..p] + w[p..];
  }

  /** The two sides may be swapped: one order resolves exactly if the other does, to the same lines; and the union has
      every line of both sides as often as they have it, the shared text once. */
  lemma {:induction false} DecideSymmetric(space: char -> bool, base: seq<string>, ours: seq<string>,
                                           theirs: seq<string>)
    ensures var d, e := Decide(space, base, ours, theirs), Decide(space, base, theirs, ours);
            && (d.Resolved? <==> e.Resolved?)
            && (d.Resolved? ==> multiset(d.union) == multiset(e.union))
            && (d.Resolved? ==> exists w :: SameButFiller(space, w, base)
                                 && multiset(d.union) + multiset(w) == multiset(ours) + multiset(theirs))
  {
    hide SameButFiller, AllBullets, Decide, BothInserted;
    if Decide(space, base, ours, theirs).Resolved? {
      var w, p, x, y := SidesAreInserted(space, base, ours, theirs);
      InsertedFits(w, ours, theirs, p, x, y);
      InsertedDecides(space, base, ours, theirs, w, p, x, y);
      InsertedDecides(space, base, theirs, ours, w, p, y, x);
    }
    if Decide(space, base, theirs, ours).Resolved? {
      var w, p, x, y := SidesAreInserted(space, base, theirs, ours);
      InsertedFits(w, theirs, ours, p, x, y);
      InsertedDecides(space, base, theirs, ours, w, p, x, y);
      InsertedDecides(space, base, ours, theirs, w, p, y, x);
    }
  }

  /** The written file reads back as the decided lines. */
  lemma {:induction false} UnionReadsBack(space: char -> bool, base: string, ours: string, theirs: string, name: string)
    requires DecideText(space, base, ours, theirs, name).Yes?
    ensures Decide(space, Split(base), Split(ours), Split(theirs))
         == Resolved(Split(DecideText(space, base, ours, theirs, name).text))
  {
    var b, o, t := Split(base), Split(ours), Split(theirs);
    assert Decide(space, b, o, t).Resolved? && DecideText(space, base, ours, theirs, name).text
                                              == Join(Decide(space, b, o, t).union) by { hide Decide, Split, Join; }
    var w, p, x, y := SidesAreInserted(space, b, o, t);
    InsertedDecides(space, b, o, t, w, p, x, y);
    LinesOfUnion(w, o, t, p, x, y);
    var union := w[..p] + x + y + w[p..];
    assert Decide(space, b, o, t) == Resolved(union) by { hide Decide, BothInserted, SameButFiller, AllBullets; }
    hide *;
    SplitJoin(union);
  }

  lemma LinesOfUnion(w: seq<string>, ours: seq<string>, theirs: seq<string>, p: nat, x: seq<string>, y: seq<string>)
    requires BothInserted(w, ours, theirs, p, x, y)
    requires forall k :: 0 <= k < |ours| ==> FeedFree(ours[k])
    requires forall k :: 0 <= k < |theirs| ==> FeedFree(theirs[k])
    ensures var union := w[..p] + x + y + w[p..];
            union != [] && forall k :: 0 <= k < |union| ==> FeedFree(union[k])
  {
    var union := w[..p] + x + y + w[p..];
    forall k | 0 <= k < |union| ensures FeedFree(union[k]) {
      assert union[k] in ours || union[k] in theirs;
    }
    hide FeedFree;
  }
}
