/** The counts of `summary` in scripts/seged-hivo.py: one pass over the calls fills a dictionary by helper and one by
    task type and helper. */
module HelperSummary {
  import opened Options

  datatype Verdict = Accepted | Fixed | Dropped

  /** A call as the log gives it; the helper is the engine and the model. */
  datatype Call = Call(id: string, helper: string, taskType: string, status: string, ab: bool)

  datatype Rating = Rating(call: string, verdict: Verdict)

  datatype Group = Group(calls: nat, ok: nat, error: nat, blocked: nat, timeout: nat, ab: nat,
                         accepted: nat, fixed: nat, dropped: nat, unrated: nat)

  datatype TypeGroup = TypeGroup(ok: nat, fixed: nat, dropped: nat)

  const NO_CALLS: Group := Group(0, 0, 0, 0, 0, 0, 0, 0, 0, 0)

  const NO_OK: TypeGroup := TypeGroup(0, 0, 0)

  function TypeKey(c: Call): string { c.taskType + " / " + c.helper }

  function One(b: bool): nat { if b then 1 else 0 }

  function AddCall(g: Group, c: Call, rated: Option<Verdict>): Group {
    var ok := c.status == "ok";
    Group(g.calls + 1, g.ok + One(ok), g.error + One(!ok && c.status != "blocked" && c.status != "timeout"),
          g.blocked + One(c.status == "blocked"), g.timeout + One(c.status == "timeout"), g.ab + One(c.ab),
          g.accepted + One(ok && rated == Some(Accepted)), g.fixed + One(ok && rated == Some(Fixed)),
          g.dropped + One(ok && rated == Some(Dropped)), g.unrated + One(ok && rated == None))
  }

  function AddOk(t: TypeGroup, rated: Option<Verdict>): TypeGroup {
    TypeGroup(t.ok + 1, t.fixed + One(rated == Some(Fixed)), t.dropped + One(rated == Some(Dropped)))
  }

  function Find<V>(m: map<string, V>, key: string, none: V): V { if key in m then m[key] else none }

  function RatingOf(ratings: map<string, Verdict>, id: string): Option<Verdict> {
    if id in ratings then Some(ratings[id]) else None
  }

  /** The last rating of a call wins. */
  function Ratings(rows: seq<Rating>): map<string, Verdict> {
    if rows == [] then map[]
    else Ratings(rows[..|rows| - 1])[rows[|rows| - 1].call := rows[|rows| - 1].verdict]
  }

  function ByHelper(calls: seq<Call>, ratings: map<string, Verdict>): map<string, Group> {
    if calls == [] then map[]
    else
      var m, c := ByHelper(calls[..|calls| - 1], ratings), calls[|calls| - 1];
      m[c.helper := AddCall(Find(m, c.helper, NO_CALLS), c, RatingOf(ratings, c.id))]
  }

  function ByType(calls: seq<Call>, ratings: map<string, Verdict>): map<string, TypeGroup> {
    if calls == [] then map[]
    else
      var m, c := ByType(calls[..|calls| - 1], ratings), calls[|calls| - 1];
      if c.status == "ok" then m[TypeKey(c) := AddOk(Find(m, TypeKey(c), NO_OK), RatingOf(ratings, c.id))] else m
  }

  /** The counters of one helper. */
  method CountCall(g0: Group, c: Call, rated: Option<Verdict>) returns (g: Group)
    ensures g == AddCall(g0, c, rated)
  {
    g := g0.(calls := g0.calls + 1, ab := g0.ab + One(c.ab));
    if c.status == "ok" {
      g := g.(ok := g.ok + 1);
      match rated
      case Some(Accepted) => g := g.(accepted := g.accepted + 1);
      case Some(Fixed) => g := g.(fixed := g.fixed + 1);
      case Some(Dropped) => g := g.(dropped := g.dropped + 1);
      case None => g := g.(unrated := g.unrated + 1);
    } else if c.status == "blocked" {
      g := g.(blocked := g.blocked + 1);
    } else if c.status == "timeout" {
      g := g.(timeout := g.timeout + 1);
    } else {
      g := g.(error := g.error + 1);
    }
  }

  method CountOk(t0: TypeGroup, rated: Option<Verdict>) returns (t: TypeGroup)
    ensures t == AddOk(t0, rated)
  {
    t := t0.(ok := t0.ok + 1);
    if rated == Some(Fixed) {
      t := t.(fixed := t.fixed + 1);
    } else if rated == Some(Dropped) {
      t := t.(dropped := t.dropped + 1);
    }
  }

  /** The pass over the ratings, then over the calls. */
  method Summary(calls: seq<Call>, rows: seq<Rating>)
    returns (out: map<string, Group>, byType: map<string, TypeGroup>)
    ensures out == ByHelper(calls, Ratings(rows)) && byType == ByType(calls, Ratings(rows))
  {
    var ratings: map<string, Verdict> := map[];
    for k := 0 to |rows|
      invariant ratings == Ratings(rows[..k])
    {
      assert rows[..k + 1][..k] == rows[..k];
      ratings := ratings[rows[k].call := rows[k].verdict];
    }
    assert rows[..|rows|] == rows;
    out, byType := map[], map[];
    for k := 0 to |calls|
      invariant out == ByHelper(calls[..k], ratings) && byType == ByType(calls[..k], ratings)
    {
      assert calls[..k + 1][..k] == calls[..k];
      var c := calls[k];
      var rated := RatingOf(ratings, c.id);
      if c.status == "ok" {
        var t := CountOk(Find(byType, TypeKey(c), NO_OK), rated);
        byType := byType[TypeKey(c) := t];
      }
      var g := CountCall(Find(out, c.helper, NO_CALLS), c, rated);
      out := out[c.helper := g];
    }
    assert calls[..|calls|] == calls;
  }

  // ---- counting ----

  function AnyHelper(c: Call): Option<string> { Some(c.helper) }

  function OkHelper(c: Call): Option<string> { if c.status == "ok" then Some(c.helper) else None }

  function OkKey(c: Call): Option<string> { if c.status == "ok" then Some(TypeKey(c)) else None }

  predicate Named(name: Call -> Option<string>, c: Call, keys: set<string>) {
    name(c).Some? && name(c).value in keys
  }

  /** How many calls have their name among these. */
  function Count(calls: seq<Call>, name: Call -> Option<string>, keys: set<string>): nat {
    if calls == [] then 0
    else Count(calls[..|calls| - 1], name, keys) + One(Named(name, calls[|calls| - 1], keys))
  }

  ghost function Total(m: map<string, nat>, keys: set<string>): nat
    requires keys <= m.Keys
  {
    if keys == {} then 0 else AnyOf(keys); var k :| k in keys; m[k] + Total(m, keys - {k})
  }

  lemma AnyOf(keys: set<string>)
    requires keys != {}
    ensures exists k :: k in keys
  {}

  lemma {:induction false} CountSplits(calls: seq<Call>, name: Call -> Option<string>, keys: set<string>, k: string)
    requires k in keys
    ensures Count(calls, name, keys) == Count(calls, name, {k}) + Count(calls, name, keys - {k})
  {
    if calls != [] { CountSplits(calls[..|calls| - 1], name, keys, k); }
  }

  lemma {:induction false} CountNone(calls: seq<Call>, name: Call -> Option<string>)
    ensures Count(calls, name, {}) == 0
  {
    if calls != [] { CountNone(calls[..|calls| - 1], name); }
  }

  /** A dictionary that counts each name sums up to the calls so named. */
  lemma {:induction false} TotalIsCount(m: map<string, nat>, keys: set<string>, calls: seq<Call>,
                                        name: Call -> Option<string>)
    requires keys <= m.Keys && forall k :: k in keys ==> m[k] == Count(calls, name, {k})
    ensures Total(m, keys) == Count(calls, name, keys)
  {
    if keys == {} {
      CountNone(calls, name);
    } else {
      AnyOf(keys);
      var k :| k in keys && Total(m, keys) == m[k] + Total(m, keys - {k});
      TotalIsCount(m, keys - {k}, calls, name);
      CountSplits(calls, name, keys, k);
    }
  }

  // ---- what the dictionaries hold ----

  predicate AddsUp(g: Group) {
    g.ok + g.error + g.blocked + g.timeout == g.calls && g.accepted + g.fixed + g.dropped + g.unrated == g.ok
  }

  lemma CallAddsUp(g: Group, c: Call, rated: Option<Verdict>)
    requires AddsUp(g)
    ensures AddsUp(AddCall(g, c, rated))
    ensures AddCall(g, c, rated).calls == g.calls + 1 && AddCall(g, c, rated).ok == g.ok + One(c.status == "ok")
  {
    if rated.Some? {
      match rated.value
      case Accepted =>
      case Fixed =>
      case Dropped =>
    }
  }

  /** A helper's group: its calls, by status and, the ok ones, by verdict. */
  lemma {:induction false} GroupAddsUp(calls: seq<Call>, ratings: map<string, Verdict>, h: string)
    ensures var out := ByHelper(calls, ratings);
            var g := Find(out, h, NO_CALLS);
            && (h in out <==> Count(calls, AnyHelper, {h}) > 0)
            && g.calls == Count(calls, AnyHelper, {h}) && g.ok == Count(calls, OkHelper, {h}) && AddsUp(g)
  {
    hide *;
    if calls == [] {
      NothingAddsUp(ratings, h);
    } else {
      var before, c := calls[..|calls| - 1], calls[|calls| - 1];
      var m, rated := ByHelper(before, ratings), RatingOf(ratings, c.id);
      var g := AddCall(Find(m, c.helper, NO_CALLS), c, rated);
      HelperLast(calls, ratings);
      GroupAddsUp(before, ratings, h);
      CountLast(calls, AnyHelper, {h});
      CountLast(calls, OkHelper, {h});
      NamedHelper(c, h);
      FindPut(m, c.helper, g, h, NO_CALLS);
      if c.helper == h { CallAddsUp(Find(m, c.helper, NO_CALLS), c, rated); }
    }
  }

  lemma NothingAddsUp(ratings: map<string, Verdict>, h: string)
    ensures ByHelper([], ratings) == map[] && Find(ByHelper([], ratings), h, NO_CALLS) == NO_CALLS && AddsUp(NO_CALLS)
    ensures NO_CALLS.calls == 0 && NO_CALLS.ok == 0
    ensures Count([], AnyHelper, {h}) == 0 && Count([], OkHelper, {h}) == 0
  {}

  lemma HelperLast(calls: seq<Call>, ratings: map<string, Verdict>)
    requires calls != []
    ensures var m, c := ByHelper(calls[..|calls| - 1], ratings), calls[|calls| - 1];
            ByHelper(calls, ratings) == m[c.helper := AddCall(Find(m, c.helper, NO_CALLS), c, RatingOf(ratings, c.id))]
  {
    hide AddCall, Find, RatingOf;
  }

  lemma NamedHelper(c: Call, h: string)
    ensures One(Named(AnyHelper, c, {h})) == if c.helper == h then 1 else 0
    ensures One(Named(OkHelper, c, {h})) == if c.helper == h then One(c.status == "ok") else 0
  {}

  lemma FindPut<V>(m: map<string, V>, key: string, v: V, h: string, none: V)
    ensures Find(m[key := v], h, none) == if h == key then v else Find(m, h, none)
  {}

  lemma CountLast(calls: seq<Call>, name: Call -> Option<string>, keys: set<string>)
    requires calls != []
    ensures var before, c := calls[..|calls| - 1], calls[|calls| - 1];
            Count(calls, name, keys) == Count(before, name, keys) + One(Named(name, c, keys))
  {}

  lemma {:induction false} TypeAddsUp(calls: seq<Call>, ratings: map<string, Verdict>, key: string)
    ensures var byType := ByType(calls, ratings);
            (key in byType <==> Count(calls, OkKey, {key}) > 0)
            && Find(byType, key, NO_OK).ok == Count(calls, OkKey, {key})
            && Find(byType, key, NO_OK).fixed + Find(byType, key, NO_OK).dropped <= Find(byType, key, NO_OK).ok
  {
    if calls != [] { TypeAddsUp(calls[..|calls| - 1], ratings, key); }
  }

  function CallsOf(out: map<string, Group>): map<string, nat> { map h <- out :: out[h].calls }

  function OksOf(out: map<string, Group>): map<string, nat> { map h <- out :: out[h].ok }

  function TypeOksOf(byType: map<string, TypeGroup>): map<string, nat> { map k <- byType :: byType[k].ok }

  predicate IsOk(c: Call) { c.status == "ok" }

  function OkCalls(calls: seq<Call>): nat {
    if calls == [] then 0 else OkCalls(calls[..|calls| - 1]) + One(IsOk(calls[|calls| - 1]))
  }

  lemma {:induction false} AllNamed(calls: seq<Call>, keys: set<string>, helpers: set<string>)
    requires forall k :: 0 <= k < |calls| ==>
                           calls[k].helper in helpers && (IsOk(calls[k]) ==> TypeKey(calls[k]) in keys)
    ensures Count(calls, AnyHelper, helpers) == |calls|
    ensures Count(calls, OkHelper, helpers) == OkCalls(calls) == Count(calls, OkKey, keys)
  {
    if calls != [] { AllNamed(calls[..|calls| - 1], keys, helpers); }
  }

  lemma {:induction false} InTheKeys(calls: seq<Call>, ratings: map<string, Verdict>)
    ensures forall k :: 0 <= k < |calls| ==> calls[k].helper in ByHelper(calls, ratings)
    ensures forall k :: 0 <= k < |calls| && IsOk(calls[k]) ==> TypeKey(calls[k]) in ByType(calls, ratings)
  {
    if calls != [] { InTheKeys(calls[..|calls| - 1], ratings); }
  }

  /** The two dictionaries, keyed differently, add up to the same ok calls, and the helpers' calls to all calls. */
  lemma {:induction false} SummaryAddsUp(calls: seq<Call>, ratings: map<string, Verdict>)
    ensures var out, byType := ByHelper(calls, ratings), ByType(calls, ratings);
            && Total(CallsOf(out), out.Keys) == |calls|
            && Total(OksOf(out), out.Keys) == OkCalls(calls) == Total(TypeOksOf(byType), byType.Keys)
  {
    var out, byType := ByHelper(calls, ratings), ByType(calls, ratings);
    forall h | h in out
      ensures out[h].calls == Count(calls, AnyHelper, {h}) && out[h].ok == Count(calls, OkHelper, {h})
    {
      GroupAddsUp(calls, ratings, h);
    }
    forall k | k in byType ensures byType[k].ok == Count(calls, OkKey, {k}) { TypeAddsUp(calls, ratings, k); }
    hide ByHelper, ByType, Count, Total, OkCalls;
    TotalIsCount(CallsOf(out), out.Keys, calls, AnyHelper);
    TotalIsCount(OksOf(out), out.Keys, calls, OkHelper);
    TotalIsCount(TypeOksOf(byType), byType.Keys, calls, OkKey);
    InTheKeys(calls, ratings);
    AllNamed(calls, byType.Keys, out.Keys);
  }

  /** The keys of one helper's ok calls. */
  function KeysOf(calls: seq<Call>, h: string): set<string> {
    set k | 0 <= k < |calls| && IsOk(calls[k]) && calls[k].helper == h :: TypeKey(calls[k])
  }

  /** No ok call of another helper has a key of this one's. */
  predicate OwnKeys(calls: seq<Call>, keys: set<string>, h: string) {
    forall k :: 0 <= k < |calls| && IsOk(calls[k]) && TypeKey(calls[k]) in keys ==> calls[k].helper == h
  }

  lemma {:induction false} Shares(calls: seq<Call>, keys: set<string>, h: string)
    requires forall k :: 0 <= k < |calls| && IsOk(calls[k]) && calls[k].helper == h ==> TypeKey(calls[k]) in keys
    ensures Count(calls, OkHelper, {h}) <= Count(calls, OkKey, keys)
    ensures Count(calls, OkHelper, {h}) == Count(calls, OkKey, keys) <==> OwnKeys(calls, keys, h)
  {
    if calls != [] {
      var before, c := calls[..|calls| - 1], calls[|calls| - 1];
      Shares(before, keys, h);
      assert OwnKeys(calls, keys, h) <==>
        OwnKeys(before, keys, h) && (IsOk(c) && TypeKey(c) in keys ==> c.helper == h);
    }
  }

  /** One helper: the ok counts of its task types add up to its own ok count exactly if no other helper's ok call has
      the same "task type / helper" text. */
  lemma {:induction false} HelperAddsUp(calls: seq<Call>, ratings: map<string, Verdict>, h: string)
    ensures var byType, keys := ByType(calls, ratings), KeysOf(calls, h);
            && keys <= byType.Keys
            && (Total(TypeOksOf(byType), keys) == Find(ByHelper(calls, ratings), h, NO_CALLS).ok
                <==> OwnKeys(calls, keys, h))
  {
    var byType, keys := ByType(calls, ratings), KeysOf(calls, h);
    KeysIn(calls, ratings, h);
    hide *;
    GroupAddsUp(calls, ratings, h);
    TypesCount(byType, keys, calls, ratings);
    TotalIsCount(TypeOksOf(byType), keys, calls, OkKey);
    Shares(calls, keys, h);
  }

  lemma KeysIn(calls: seq<Call>, ratings: map<string, Verdict>, h: string)
    ensures KeysOf(calls, h) <= ByType(calls, ratings).Keys
    ensures forall k :: 0 <= k < |calls| && IsOk(calls[k]) && calls[k].helper == h ==>
                          TypeKey(calls[k]) in KeysOf(calls, h)
  {
    InTheKeys(calls, ratings);
    hide ByType, TypeKey;
  }

  lemma TypesCount(byType: map<string, TypeGroup>, keys: set<string>, calls: seq<Call>, ratings: map<string, Verdict>)
    requires byType == ByType(calls, ratings) && keys <= byType.Keys
    ensures TypeOksOf(byType).Keys == byType.Keys
    ensures forall k :: k in keys ==> TypeOksOf(byType)[k] == Count(calls, OkKey, {k})
  {
    hide Count, ByType;
    forall k | k in keys ensures TypeOksOf(byType)[k] == Count(calls, OkKey, {k}) { TypeAddsUp(calls, ratings, k); }
  }

  // ---- what each counter counts ----

  datatype Counter = Calls | OkCount | Errors | BlockedCount | Timeouts | Marked | AcceptedCount | FixedCount
                   | DroppedCount | Unrated

  function Reading(g: Group, what: Counter): nat {
    match what
    case Calls => g.calls
    case OkCount => g.ok
    case Errors => g.error
    case BlockedCount => g.blocked
    case Timeouts => g.timeout
    case Marked => g.ab
    case AcceptedCount => g.accepted
    case FixedCount => g.fixed
    case DroppedCount => g.dropped
    case Unrated => g.unrated
  }

  /** The calls a counter is for; a rating counts when the call is ok. */
  ghost predicate Counts(what: Counter, c: Call, ratings: map<string, Verdict>) {
    match what
    case Calls => true
    case OkCount => c.status == "ok"
    case Errors => c.status != "ok" && c.status != "blocked" && c.status != "timeout"
    case BlockedCount => c.status == "blocked"
    case Timeouts => c.status == "timeout"
    case Marked => c.ab
    case AcceptedCount => c.status == "ok" && c.id in ratings && ratings[c.id] == Accepted
    case FixedCount => c.status == "ok" && c.id in ratings && ratings[c.id] == Fixed
    case DroppedCount => c.status == "ok" && c.id in ratings && ratings[c.id] == Dropped
    case Unrated => c.status == "ok" && c.id !in ratings
  }

  ghost function CallsCounted(calls: seq<Call>, ratings: map<string, Verdict>, h: string, what: Counter): set<nat> {
    set k: nat | k < |calls| && calls[k].helper == h && Counts(what, calls[k], ratings)
  }

  lemma CallCounts(g: Group, c: Call, ratings: map<string, Verdict>, what: Counter)
    ensures Reading(AddCall(g, c, RatingOf(ratings, c.id)), what)
         == Reading(g, what) + One(Counts(what, c, ratings))
    ensures Reading(NO_CALLS, what) == 0
  {}

  lemma SetNext(all: set<nat>, before: set<nat>, n: nat, b: bool)
    requires n !in before && forall k :: k in all <==> k in before || (b && k == n)
    ensures |all| == |before| + One(b)
  {
    assert all == before + if b then {n} else {};
  }

  lemma NextCounted(calls: seq<Call>, ratings: map<string, Verdict>, h: string, what: Counter)
    requires calls != []
    ensures var n := |calls| - 1;
            |CallsCounted(calls, ratings, h, what)|
            == |CallsCounted(calls[..n], ratings, h, what)|
               + One(calls[n].helper == h && Counts(what, calls[n], ratings))
  {
    hide Counts;
    var n := |calls| - 1;
    var before := CallsCounted(calls[..n], ratings, h, what);
    assert forall k :: 0 <= k < n ==> calls[..n][k] == calls[k];
    SetNext(CallsCounted(calls, ratings, h, what), before, n, calls[n].helper == h && Counts(what, calls[n], ratings));
  }

  /** Every counter of a helper's group is the number of its calls of that kind. */
  lemma {:induction false} GroupCounts(calls: seq<Call>, ratings: map<string, Verdict>, h: string, what: Counter)
    ensures Reading(Find(ByHelper(calls, ratings), h, NO_CALLS), what) == |CallsCounted(calls, ratings, h, what)|
  {
    if calls == [] {
      CallCounts(NO_CALLS, Call("", "", "", "", false), ratings, what);
      assert CallsCounted([], ratings, h, what) == {};
    } else {
      var before, c := calls[..|calls| - 1], calls[|calls| - 1];
      var m := ByHelper(before, ratings);
      var g := Find(m, c.helper, NO_CALLS);
      HelperLast(calls, ratings);
      NextCounted(calls, ratings, h, what);
      CallCounts(g, c, ratings, what);
      FindPut(m, c.helper, AddCall(g, c, RatingOf(ratings, c.id)), h, NO_CALLS);
      hide *;
      GroupCounts(before, ratings, h, what);
      OneIs(c.helper == h && Counts(what, c, ratings));
      OneIs(Counts(what, c, ratings));
    }
  }

  lemma OneIs(b: bool)
    ensures One(b) == if b then 1 else 0
  {}

  /** A rating of a call is the verdict of the last row that rates it. */
  lemma {:induction false} LastRatingWins(rows: seq<Rating>, id: string)
    ensures id in Ratings(rows) <==> exists k :: 0 <= k < |rows| && rows[k].call == id
    ensures forall k :: 0 <= k < |rows| && rows[k].call == id && (forall j :: k < j < |rows| ==> rows[j].call != id)
              ==> id in Ratings(rows) && Ratings(rows)[id] == rows[k].verdict
  {
    if rows != [] {
      var n := |rows| - 1;
      var before := rows[..n];
      LastRatingWins(before, id);
      assert Ratings(rows) == Ratings(before)[rows[n].call := rows[n].verdict];
      hide Ratings;
      assert forall k :: 0 <= k < n ==> before[k] == rows[k];
      if rows[n].call != id {
        forall k | 0 <= k < n && rows[k].call == id && (forall j :: k < j < |rows| ==> rows[j].call != id)
          ensures id in Ratings(rows) && Ratings(rows)[id] == rows[k].verdict
        {
          assert before[k].call == id && forall j :: k < j < n ==> before[j].call != id;
        }
      }
    }
  }

  function TypeReading(t: TypeGroup, what: Counter): nat {
    if what == FixedCount then t.fixed else if what == DroppedCount then t.dropped else t.ok
  }

  ghost function OkCounted(calls: seq<Call>, ratings: map<string, Verdict>, key: string, what: Counter): set<nat> {
    set k: nat | k < |calls| && calls[k].taskType + " / " + calls[k].helper == key && Counts(what, calls[k], ratings)
  }

  lemma NextOk(calls: seq<Call>, ratings: map<string, Verdict>, key: string, what: Counter)
    requires calls != []
    ensures var n := |calls| - 1;
            |OkCounted(calls, ratings, key, what)|
            == |OkCounted(calls[..n], ratings, key, what)|
               + One(calls[n].taskType + " / " + calls[n].helper == key && Counts(what, calls[n], ratings))
  {
    hide Counts;
    var n := |calls| - 1;
    var before := OkCounted(calls[..n], ratings, key, what);
    assert forall k :: 0 <= k < n ==> calls[..n][k] == calls[k];
    SetNext(OkCounted(calls, ratings, key, what), before, n,
            calls[n].taskType + " / " + calls[n].helper == key && Counts(what, calls[n], ratings));
  }

  /** Every counter under a task type and helper is the number of ok calls of that kind with that text. */
  lemma {:induction false} TypeCounts(calls: seq<Call>, ratings: map<string, Verdict>, key: string, what: Counter)
    requires what == OkCount || what == FixedCount || what == DroppedCount
    ensures TypeReading(Find(ByType(calls, ratings), key, NO_OK), what) == |OkCounted(calls, ratings, key, what)|
  {
    if calls == [] {
      assert OkCounted([], ratings, key, what) == {};
    } else {
      TypeCounts(calls[..|calls| - 1], ratings, key, what);
      NextOk(calls, ratings, key, what);
      hide OkCounted;
    }
  }

  // ---- the rows the script writes ----

  /** The task types the command line accepts, and the one a call without a type counts under. */
  const TASK_TYPES: seq<string> :=
    ["kod", "kod-atnezes", "szoveg", "kep", "weboldal", "kutatas", "adat", "egyeb", "ismeretlen"]

  /** No task type that the command line accepts holds a slash, and neither does the one that stands for none. */
  predicate SlashFree(s: string) { forall k :: 0 <= k < |s| ==> s[k] != '/' }

  predicate OwnTypes(calls: seq<Call>) { forall k :: 0 <= k < |calls| ==> SlashFree(calls[k].taskType) }

  lemma {:induction false} ListedTypesAreSlashFree(t: string)
    requires t in TASK_TYPES
    ensures SlashFree(t)
  {
    var k :| 0 <= k < |TASK_TYPES| && TASK_TYPES[k] == t;
  }

  /** A key with such a task type reads back. */
  lemma KeyReadsBack(a: Call, b: Call)
    requires SlashFree(a.taskType) && SlashFree(b.taskType) && TypeKey(a) == TypeKey(b)
    ensures a.taskType == b.taskType && a.helper == b.helper
  {
    var i, j := |a.taskType|, |b.taskType|;
    var key := TypeKey(a);
    assert key[i + 1] == '/' && key[j + 1] == '/';
    assert forall k :: 0 <= k < i ==> key[k] == a.taskType[k];
    assert forall k :: 0 <= k < j ==> key[k] == b.taskType[k];
    assert key[i] == ' ' && key[j] == ' ';
    assert key[..i] == a.taskType && key[..j] == b.taskType && key[i + 3..] == a.helper && key[j + 3..] == b.helper;
  }

  /** On the rows the script writes each helper's task types add up to its own ok count. */
  lemma {:induction false} HelperAddsUpOnOwnRows(calls: seq<Call>, ratings: map<string, Verdict>, h: string)
    requires OwnTypes(calls)
    ensures var byType, keys := ByType(calls, ratings), KeysOf(calls, h);
            && keys <= byType.Keys
            && Total(TypeOksOf(byType), keys) == Find(ByHelper(calls, ratings), h, NO_CALLS).ok
  {
    var keys := KeysOf(calls, h);
    forall k | 0 <= k < |calls| && IsOk(calls[k]) && TypeKey(calls[k]) in keys ensures calls[k].helper == h {
      var j :| 0 <= j < |calls| && IsOk(calls[j]) && calls[j].helper == h && TypeKey(calls[j]) == TypeKey(calls[k]);
      KeyReadsBack(calls[j], calls[k]);
    }
    assert OwnKeys(calls, keys, h);
    hide *;
    HelperAddsUp(calls, ratings, h);
  }

  /** In a row written by hand a task type may hold a slash; then two helpers can share a text. */
  lemma {:induction false} SharedKey()
    ensures var a, b := Call("1", "codex:b", "t / codex:a", "ok", false),
                        Call("2", "codex:a / codex:b", "t", "ok", false);
            TypeKey(a) == TypeKey(b) && !OwnKeys([a, b], KeysOf([a, b], a.helper), a.helper)
  {
    var a, b := Call("1", "codex:b", "t / codex:a", "ok", false), Call("2", "codex:a / codex:b", "t", "ok", false);
    assert TypeKey(a) == "t / codex:a / codex:b" == TypeKey(b);
    assert [a, b][0] == a && TypeKey([a, b][0]) in KeysOf([a, b], a.helper);
    assert [a, b][1] == b && |b.helper| != |a.helper|;
  }
}
