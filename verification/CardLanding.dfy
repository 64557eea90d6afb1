/** The landing check of src/card-landing-ancestry.ts: is a claimed merge a landing of this card's work? */
module CardLanding {
  import opened Options
  import opened Strings

  // ---- the repository after the fetch ----

  /** A commit; its message as the check sees it, trimmed and in lower case. */
  datatype Commit = Commit(parents: seq<string>, message: string)

  predicate LowerHex(c: char) { '0' <= c <= '9' || 'a' <= c <= 'f' }

  predicate AnyHex(c: char) { LowerHex(c) || 'A' <= c <= 'F' }

  function Lower(s: string): string {
    seq(|s|, k requires 0 <= k < |s| => LowerChar(s[k]))
  }

  predicate FullSha(s: string) { |s| == 40 && forall k :: 0 <= k < |s| ==> AnyHex(s[k]) }

  predicate CardId(s: string) { |s| == 8 && forall k :: 0 <= k < |s| ==> LowerHex(s[k]) }

  /** git writes object names in lower case. */
  predicate Canonical(s: string) { FullSha(s) && Lower(s) == s }

  predicate CanonicalStore(g: map<string, Commit>) {
    forall c <- g :: Canonical(c) && forall k :: 0 <= k < |g[c].parents| ==> Canonical(g[c].parents[k])
  }

  type Commits = g: map<string, Commit> | CanonicalStore(g) witness map[]

  predicate Link(g: Commits, child: string, parent: string) { child in g && parent in g[child].parents }

  /** A way down from the first commit to the last, a parent at a time. */
  predicate Path(g: Commits, p: seq<string>) {
    p != [] && forall k :: 0 < k < |p| ==> Link(g, p[k - 1], p[k])
  }

  ghost predicate Reaches(g: Commits, from: string, to: string) {
    exists p :: Path(g, p) && p[0] == from && p[|p| - 1] == to
  }

  // ---- the checks ----

  /** The commit of that full name, never a prefix, a ref or a tag. */
  function ResolveCommit(g: Commits, sha: string): Option<string> {
    if FullSha(sha) && Lower(sha) in g then Some(Lower(sha)) else None
  }

  function SecondParent(g: Commits, merge: string): Option<string> {
    if merge in g && |g[merge].parents| >= 2 then Some(g[merge].parents[1]) else None
  }

  predicate HexDigit(c: char) { c in "0123456789abcdef" }

  /** An occurrence with no hex digit on either side. */
  predicate Delimited(s: string, p: string, k: nat) {
    && OccursAt(s, k, p)
    && (k == 0 || !HexDigit(s[k - 1])) && (k + |p| == |s| || !HexDigit(s[k + |p|]))
  }

  lemma LowerHexIs(c: char)
    ensures LowerHex(c) <==> HexDigit(c)
  {
    var digits := "0123456789abcdef";
    if '0' <= c <= '9' { assert c == digits[c as int - '0' as int]; }
    if 'a' <= c <= 'f' { assert c == digits[c as int - 'a' as int + 10]; }
  }

  predicate Names(message: string, cardId: string) { exists k: nat :: k <= |message| && Delimited(message, cardId, k) }

  /** indexOf: the first place from `at` on. */
  function IndexOf(s: string, p: string, at: nat): (r: Option<nat>)
    ensures r.Some? ==> at <= r.value && OccursAt(s, r.value, p)
    ensures forall k :: at <= k && (r.Some? ==> k < r.value) ==> !OccursAt(s, k, p)
    decreases |s| - at
  {
    if at + |p| > |s| then None else if OccursAt(s, at, p) then Some(at) else IndexOf(s, p, at + 1)
  }

  lemma DelimitedIs(s: string, p: string, k: nat)
    requires OccursAt(s, k, p)
    ensures k + |p| <= |s|
    ensures Delimited(s, p, k)
       <==> (k == 0 || !LowerHex(s[k - 1])) && (k + |p| == |s| || !LowerHex(s[k + |p|]))
  {
    if k > 0 { LowerHexIs(s[k - 1]); }
    if k + |p| < |s| { LowerHexIs(s[k + |p|]); }
    hide LowerHex, HexDigit;
  }

  lemma OnlyOccurrences(s: string, p: string)
    ensures forall k: nat :: Delimited(s, p, k) ==> OccursAt(s, k, p) && k <= |s|
  {
    hide HexDigit;
  }

  /** The search for a card id in a merge message. */
  method MergeMessageNamesCard(message: string, cardId: string) returns (found: bool)
    ensures found <==> Names(message, cardId)
  {
    OnlyOccurrences(message, cardId);
    hide Delimited, OccursAt, LowerHex;
    var idx := IndexOf(message, cardId, 0);
    while idx.Some?
      invariant idx.Some? ==> OccursAt(message, idx.value, cardId)
      invariant forall k :: 0 <= k && (idx.Some? ==> k < idx.value) ==> !Delimited(message, cardId, k)
      decreases if idx.Some? then |message| - idx.value + 1 else 0
    {
      var at := idx.value;
      DelimitedIs(message, cardId, at);
      var hexBefore := at != 0 && LowerHex(message[at - 1]);
      var after := at + |cardId|;
      var hexAfter := after < |message| && LowerHex(message[after]);
      if !hexBefore && !hexAfter {
        assert Delimited(message, cardId, at);
        return true;
      }
      idx := IndexOf(message, cardId, at + 1);
    }
    found := false;
  }

  datatype Reason =
    | BadCardId | UnknownRepo | FetchFailed | BadMergeSha | BadWorkSha | NotOnBranch | NotInMerge | NotAMerge
    | NotSecondParent | NotNamed

  datatype Verdict = Ok(work: string, merge: string) | Refused(reason: Reason)

  /** Which git calls fail; a failure always counts against the claim. */
  datatype Faults = Faults(fetch: bool, merge: bool, work: bool, onBranch: bool, inMerge: bool, parent: bool,
                           message: bool)

  const NO_FAULTS: Faults := Faults(false, false, false, false, false, false, false)

  const REPOS: set<string> := {"marveen", "mopsion"}

  /** The checks in their order, on the repository as it is after the fetch, `tip` being the branch's commit. */
  ghost function Verify(g: Commits, tip: string, faults: Faults, repo: string, cardId: string, workSha: string,
                        mergeSha: string): Verdict
  {
    if !CardId(cardId) then Refused(BadCardId)
    else if repo !in REPOS then Refused(UnknownRepo)
    else if faults.fetch then Refused(FetchFailed)
    else
      var merge, work := ResolveCommit(g, mergeSha), ResolveCommit(g, workSha);
      if merge.None? || faults.merge then Refused(BadMergeSha)
      else if work.None? || faults.work then Refused(BadWorkSha)
      else if faults.onBranch || !Reaches(g, tip, merge.value) then Refused(NotOnBranch)
      else if faults.inMerge || !Reaches(g, merge.value, work.value) then Refused(NotInMerge)
      else
        var second := SecondParent(g, merge.value);
        if faults.parent || second.None? then Refused(NotAMerge)
        else if second.value != work.value then Refused(NotSecondParent)
        else if faults.message || !Names(g[merge.value].message, cardId) then Refused(NotNamed)
        else Ok(work.value, merge.value)
  }

  // ---- reachability ----

  lemma ReachesSelf(g: Commits, c: string)
    ensures Reaches(g, c, c)
  {
    assert Path(g, [c]);
  }

  lemma LinkReaches(g: Commits, a: string, b: string)
    requires Link(g, a, b)
    ensures Reaches(g, a, b)
  {
    var p := [a, b];
    assert Path(g, p) && p[0] == a && p[|p| - 1] == b;
  }

  lemma ReachesOn(g: Commits, a: string, b: string, c: string)
    requires Reaches(g, a, b) && Reaches(g, b, c)
    ensures Reaches(g, a, c)
  {
    var p :| Path(g, p) && p[0] == a && p[|p| - 1] == b;
    var q :| Path(g, q) && q[0] == b && q[|q| - 1] == c;
    var r := p + q[1..];
    assert r[|p| - 1..] == q;
    forall k | 0 < k < |r| ensures Link(g, r[k - 1], r[k]) {
      if k >= |p| { assert r[k] == q[k - |p| + 1] && r[k - 1] == q[k - |p|]; }
    }
    assert Path(g, r) && r[0] == a && r[|r| - 1] == c;
  }

  /** The graph only grows: commits never change. */
  ghost predicate Grows(g: Commits, h: Commits) { forall c <- g :: c in h && h[c] == g[c] }

  lemma ReachesGrown(g: Commits, h: Commits, a: string, b: string)
    requires Grows(g, h) && Reaches(g, a, b)
    ensures Reaches(h, a, b)
  {
    var p :| Path(g, p) && p[0] == a && p[|p| - 1] == b;
    forall k | 0 < k < |p| ensures Link(h, p[k - 1], p[k]) {
      assert Link(g, p[k - 1], p[k]);
    }
    assert Path(h, p);
  }

  // ---- what a verdict says ----

  /** What a landing is: the merge is on the branch, its second parent is the work, its message names the card, whose
      id is eight hex digits. */
  ghost predicate Landing(g: Commits, tip: string, cardId: string, work: string, merge: string) {
    && |cardId| == 8 && (forall k :: 0 <= k < 8 ==> HexDigit(cardId[k]))
    && work in g && merge in g && Reaches(g, tip, merge)
    && |g[merge].parents| >= 2 && g[merge].parents[1] == work && Names(g[merge].message, cardId)
  }

  /** The text is the full name of this commit: its forty digits, the letters large or small. */
  predicate FullNameOf(text: string, sha: string) {
    && |text| == 40 && |sha| == 40
    && forall k :: 0 <= k < 40 ==>
         HexDigit(sha[k]) && (text[k] == sha[k] || (text[k] in "ABCDEF" && sha[k] == LowerChar(text[k])))
  }

  lemma FullNameExactly(text: string, sha: string)
    ensures FullSha(text) && Lower(text) == sha <==> FullNameOf(text, sha)
  {
    if |text| == 40 {
      assert FullSha(text) <==> forall k :: 0 <= k < 40 ==> AnyHex(text[k]);
      forall k | 0 <= k < 40
        ensures AnyHex(text[k]) <==> HexDigit(LowerChar(text[k]))
                                     && (text[k] == LowerChar(text[k]) || text[k] in "ABCDEF")
      {
        AnyHexIs(text[k]);
      }
    }
    hide AnyHex, HexDigit, LowerChar;
  }

  lemma AnyHexIs(c: char)
    ensures AnyHex(c) <==> HexDigit(LowerChar(c)) && (c == LowerChar(c) || c in "ABCDEF")
  {
    LowerHexIs(LowerChar(c));
    if 'A' <= c <= 'F' { assert c == "ABCDEF"[c as int - 'A' as int]; }
  }

  lemma CardIdIs(s: string)
    ensures CardId(s) <==> |s| == 8 && forall k :: 0 <= k < 8 ==> HexDigit(s[k])
  {
    forall k | 0 <= k < |s| ensures LowerHex(s[k]) <==> HexDigit(s[k]) { LowerHexIs(s[k]); }
    hide LowerHex, HexDigit;
  }

  /** Whatever git calls fail, an ok verdict means a landing, and the work is reachable from the branch tip. */
  lemma {:induction false} OkMeansLanded(g: Commits, tip: string, faults: Faults, repo: string, cardId: string,
                                         workSha: string, mergeSha: string)
    requires var v := Verify(g, tip, faults, repo, cardId, workSha, mergeSha); v.Ok?
    ensures var v := Verify(g, tip, faults, repo, cardId, workSha, mergeSha);
            FullNameOf(workSha, v.work) && FullNameOf(mergeSha, v.merge) && Landing(g, tip, cardId, v.work, v.merge)
            && Reaches(g, v.merge, v.work) && Reaches(g, tip, v.work)
  {
    var v := Verify(g, tip, faults, repo, cardId, workSha, mergeSha);
    CardIdIs(cardId);
    FullNameExactly(workSha, v.work);
    FullNameExactly(mergeSha, v.merge);
    hide Reaches, Names, FullSha, Lower, CardId, HexDigit, FullNameOf;
    ReachesOn(g, tip, v.merge, v.work);
  }

  lemma SecondParentReached(g: Commits, merge: string)
    requires SecondParent(g, merge).Some?
    ensures Reaches(g, merge, SecondParent(g, merge).value)
  {
    LinkReaches(g, merge, SecondParent(g, merge).value);
  }

  /** The verdict is ok exactly when every git call answers and the claim gives a landing in one of the two repositories
      by its full names; the separate check that the work is an ancestor of the merge turns nothing more away. */
  lemma {:induction false} OkExactlyWhenLanded(g: Commits, tip: string, faults: Faults, repo: string, cardId: string,
                                               workSha: string, mergeSha: string, work: string, merge: string)
    ensures Verify(g, tip, faults, repo, cardId, workSha, mergeSha) == Ok(work, merge)
       <==> && (repo == "marveen" || repo == "mopsion") && FullNameOf(workSha, work) && FullNameOf(mergeSha, merge)
            && Landing(g, tip, cardId, work, merge)
            && !faults.fetch && !faults.merge && !faults.work && !faults.onBranch && !faults.inMerge && !faults.parent
            && !faults.message
  {
    CardIdIs(cardId);
    FullNameExactly(workSha, work);
    FullNameExactly(mergeSha, merge);
    hide Reaches, Names, FullSha, Lower, CardId, HexDigit, FullNameOf;
    if Landing(g, tip, cardId, work, merge) { SecondParentReached(g, merge); }
  }

  /** What each refusal names, for the claim as it stands when the checks before it have passed. */
  ghost predicate Fails(g: Commits, tip: string, faults: Faults, repo: string, cardId: string, workSha: string,
                        mergeSha: string, reason: Reason)
  {
    var work, merge := Lower(workSha), Lower(mergeSha);
    match reason
    case BadCardId => !(|cardId| == 8 && forall k :: 0 <= k < 8 ==> HexDigit(cardId[k]))
    case UnknownRepo => repo != "marveen" && repo != "mopsion"
    case FetchFailed => faults.fetch
    case BadMergeSha => faults.merge || !exists c :: c in g && FullNameOf(mergeSha, c)
    case BadWorkSha => faults.work || !exists c :: c in g && FullNameOf(workSha, c)
    case NotOnBranch => faults.onBranch || !Reaches(g, tip, merge)
    case NotInMerge => faults.inMerge || !Reaches(g, merge, work)
    case NotAMerge => faults.parent || (merge in g && |g[merge].parents| < 2)
    case NotSecondParent => merge in g && |g[merge].parents| >= 2 && g[merge].parents[1] != work
    case NotNamed => faults.message || (merge in g && !Names(g[merge].message, cardId))
  }

  const IN_ORDER: seq<Reason> := [BadCardId, UnknownRepo, FetchFailed, BadMergeSha, BadWorkSha, NotOnBranch, NotInMerge,
                                  NotAMerge, NotSecondParent, NotNamed]

  lemma ResolvedExactly(g: Commits, sha: string)
    ensures ResolveCommit(g, sha).None? <==> !exists c :: c in g && FullNameOf(sha, c)
    ensures ResolveCommit(g, sha).Some? ==> ResolveCommit(g, sha).value == Lower(sha) && Lower(sha) in g
  {
    forall c | c in g ensures FullNameOf(sha, c) <==> FullSha(sha) && Lower(sha) == c { FullNameExactly(sha, c); }
    hide FullSha, Lower, FullNameOf;
  }

  /** The first reason, from the n-th on, whose check fails. */
  ghost function FirstFailing(g: Commits, tip: string, faults: Faults, repo: string, cardId: string, workSha: string,
                              mergeSha: string, n: nat): Option<Reason>
    requires n <= 10
    decreases 10 - n
  {
    if n == 10 then None
    else if Fails(g, tip, faults, repo, cardId, workSha, mergeSha, IN_ORDER[n]) then Some(IN_ORDER[n])
    else FirstFailing(g, tip, faults, repo, cardId, workSha, mergeSha, n + 1)
  }

  /** A refusal names the first check that fails. */
  lemma {:induction false} RefusedExactly(g: Commits, tip: string, faults: Faults, repo: string, cardId: string,
                                          workSha: string, mergeSha: string)
    ensures var v := Verify(g, tip, faults, repo, cardId, workSha, mergeSha);
            FirstFailing(g, tip, faults, repo, cardId, workSha, mergeSha, 0)
            == if v.Refused? then Some(v.reason) else None
  {
    CardIdIs(cardId);
    ResolvedExactly(g, mergeSha);
    ResolvedExactly(g, workSha);
    hide Reaches, Names, Lower, CardId, HexDigit, FullNameOf, ResolveCommit;
    forall n: nat | n < 10
      ensures FirstFailing(g, tip, faults, repo, cardId, workSha, mergeSha, n)
           == if Fails(g, tip, faults, repo, cardId, workSha, mergeSha, IN_ORDER[n]) then Some(IN_ORDER[n])
              else FirstFailing(g, tip, faults, repo, cardId, workSha, mergeSha, n + 1)
    {}
  }

  /** An ok verdict stays ok while the graph only grows and the tip only moves to descendants. */
  lemma {:induction false} OkStaysOk(g: Commits, tip: string, h: Commits, newTip: string, faults: Faults, repo: string,
                                     cardId: string, workSha: string, mergeSha: string)
    requires Grows(g, h) && Reaches(h, newTip, tip)
    requires Verify(g, tip, faults, repo, cardId, workSha, mergeSha).Ok?
    ensures Verify(h, newTip, NO_FAULTS, repo, cardId, workSha, mergeSha)
         == Verify(g, tip, faults, repo, cardId, workSha, mergeSha)
  {
    hide Reaches, Names, FullSha, Lower;
    var work, merge := Lower(workSha), Lower(mergeSha);
    ReachesGrown(g, h, tip, merge);
    ReachesGrown(g, h, merge, work);
    ReachesOn(h, newTip, tip, merge);
  }
}
