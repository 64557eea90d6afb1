/** `dependency_map` of scripts/hook-load-watch.py: for each gate script a worklist walk over the local files it loads,
    and for each file or missing name on the way the gates that lead there and the owners of their commands. */
module DependencyMap {
  import opened Sequences
  import opened Strings

  /** What `local_deps` says of one file: the local files it loads, and the names it loads that are not there. */
  datatype Loads = Loads(found: set<string>, missing: set<string>)

  datatype Command = Command(scripts: seq<string>, owners: set<string>)

  datatype Key = File(path: string) | Missing(name: string)

  datatype Dep = Dep(gates: set<string>, owners: set<string>)

  /** One walk: a gate and the owners of its command. */
  datatype Job = Job(gate: string, owners: set<string>)

  predicate Script(gate: string) {
    EndsWith(gate, ".py") || EndsWith(gate, ".mjs") || EndsWith(gate, ".cjs") || EndsWith(gate, ".js")
  }

  // ---- reachability ----

  /** A chain of loads. */
  predicate Path(local: string -> Loads, p: seq<string>) {
    p != [] && forall k :: 0 <= k < |p| - 1 ==> p[k + 1] in local(p[k]).found
  }

  ghost predicate Reaches(local: string -> Loads, a: string, b: string) {
    exists p :: Path(local, p) && p[0] == a && p[|p| - 1] == b
  }

  /** The gate leads to this entry of the map: another file it reaches, or a name a file it reaches (or the gate itself)
      loads and nobody has. */
  ghost predicate Lists(local: string -> Loads, gate: string, key: Key) {
    match key
    case File(d) => d != gate && Reaches(local, gate, d)
    case Missing(m) => exists f :: Reaches(local, gate, f) && m in local(f).missing
  }

  lemma ReachesSelf(local: string -> Loads, a: string)
    ensures Reaches(local, a, a)
  {
    assert Path(local, [a]);
  }

  lemma ReachesOn(local: string -> Loads, a: string, b: string, c: string)
    requires Reaches(local, a, b) && c in local(b).found
    ensures Reaches(local, a, c)
  {
    var p :| Path(local, p) && p[0] == a && p[|p| - 1] == b;
    assert Path(local, p + [c]);
  }

  /** A set that holds the start and all it loads holds all that is reached. */
  lemma {:induction false} ClosedHoldsPath(local: string -> Loads, s: set<string>, p: seq<string>, k: nat)
    requires Path(local, p) && p[0] in s && (forall f :: f in s ==> local(f).found <= s) && k < |p|
    ensures p[k] in s
  {
    if k > 0 { ClosedHoldsPath(local, s, p, k - 1); }
  }

  lemma {:induction false} ClosedHolds(local: string -> Loads, s: set<string>, a: string, b: string)
    requires a in s && (forall f :: f in s ==> local(f).found <= s) && Reaches(local, a, b)
    ensures b in s
  {
    var p :| Path(local, p) && p[0] == a && p[|p| - 1] == b;
    ClosedHoldsPath(local, s, p, |p| - 1);
  }

  // ---- the map ----

  function Get(deps: map<Key, Dep>, key: Key): Dep { if key in deps then deps[key] else Dep({}, {}) }

  function Enter(deps: map<Key, Dep>, key: Key, job: Job): map<Key, Dep> {
    var d := Get(deps, key);
    deps[key := Dep(d.gates + {job.gate}, d.owners + job.owners)]
  }

  /** Exactly the entries under `keys` have been entered for this walk. */
  ghost predicate Entered(before: map<Key, Dep>, deps: map<Key, Dep>, keys: set<Key>, job: Job) {
    && deps.Keys == before.Keys + keys
    && (forall key :: key in deps ==>
         deps[key] == if key in keys then Enter(before, key, job)[key] else before[key])
  }

  /** One walk more: each entry the gate leads to is there, with the gate and the owners; nothing else has changed. */
  ghost predicate Advanced(local: string -> Loads, before: map<Key, Dep>, deps: map<Key, Dep>, job: Job) {
    && (forall key :: key in deps <==> key in before || Lists(local, job.gate, key))
    && (forall key, g :: key in deps ==>
         (g in deps[key].gates <==>
            (key in before && g in before[key].gates) || (Lists(local, job.gate, key) && g == job.gate)))
    && (forall key, o :: key in deps ==>
         (o in deps[key].owners <==>
            (key in before && o in before[key].owners) || (Lists(local, job.gate, key) && o in job.owners)))
  }

  /** Some walk leads to the entry; one of this gate does; one for this owner does. */
  ghost predicate Walked(local: string -> Loads, jobs: seq<Job>, key: Key) {
    exists j :: 0 <= j < |jobs| && Lists(local, jobs[j].gate, key)
  }

  ghost predicate WalkedFrom(local: string -> Loads, jobs: seq<Job>, key: Key, gate: string) {
    exists j :: 0 <= j < |jobs| && jobs[j].gate == gate && Lists(local, jobs[j].gate, key)
  }

  ghost predicate WalkedFor(local: string -> Loads, jobs: seq<Job>, key: Key, owner: string) {
    exists j :: 0 <= j < |jobs| && owner in jobs[j].owners && Lists(local, jobs[j].gate, key)
  }

  /** The map says exactly what the walks so far say. */
  ghost predicate Exact(local: string -> Loads, deps: map<Key, Dep>, jobs: seq<Job>) {
    && (forall key :: key in deps <==> Walked(local, jobs, key))
    && (forall key, g :: key in deps ==> (g in deps[key].gates <==> WalkedFrom(local, jobs, key, g)))
    && (forall key, o :: key in deps ==> (o in deps[key].owners <==> WalkedFor(local, jobs, key, o)))
  }

  /** The walks of a list of commands. */
  function JobsOf(scripts: seq<string>, owners: set<string>): seq<Job> {
    if scripts == [] then []
    else
      JobsOf(scripts[..|scripts| - 1], owners)
      + if Script(scripts[|scripts| - 1]) then [Job(scripts[|scripts| - 1], owners)] else []
  }

  function AllJobs(commands: seq<Command>): seq<Job> {
    if commands == [] then []
    else
      var c := commands[|commands| - 1];
      AllJobs(commands[..|commands| - 1]) + JobsOf(c.scripts, c.owners)
  }

  /** The entries a walk has made: every file seen but the gate, and every missing name of a file taken off the list. */
  ghost predicate WalkKeys(local: string -> Loads, keys: set<Key>, gate: string, seen: set<string>, todo: seq<string>) {
    && (forall d :: File(d) in keys <==> d in seen && d != gate)
    && (forall m :: Missing(m) in keys <==> exists f :: f in seen && f !in todo && m in local(f).missing)
  }

  ghost predicate WalkInv(local: string -> Loads, gate: string, seen: set<string>, todo: seq<string>) {
    && gate in seen && Distinct(todo) && (forall k :: 0 <= k < |todo| ==> todo[k] in seen)
    && (forall f :: f in seen ==> Reaches(local, gate, f))
    && (forall f :: f in seen && f !in todo ==> local(f).found <= seen)
  }

  lemma EnterKey(before: map<Key, Dep>, deps: map<Key, Dep>, keys: set<Key>, job: Job, key: Key)
    requires Entered(before, deps, keys, job)
    ensures Entered(before, Enter(deps, key, job), keys + {key}, job)
  {
    var deps' := Enter(deps, key, job);
    assert deps'.Keys == before.Keys + (keys + {key});
    assert Get(deps, key) == if key in keys then Enter(before, key, job)[key] else Get(before, key);
    var d := Get(before, key);
    assert d.gates + {job.gate} + {job.gate} == d.gates + {job.gate};
    assert d.owners + job.owners + job.owners == d.owners + job.owners;
  }

  function Files(s: set<string>): set<Key> { set x | x in s :: File(x) }

  function Names(s: set<string>): set<Key> { set x | x in s :: Missing(x) }

  /** The files this file loads: those not seen yet are entered and put on the list. */
  method TakeFound(found: set<string>, job: Job, ghost before: map<Key, Dep>, deps0: map<Key, Dep>,
                   ghost keys0: set<Key>, seen0: set<string>, todo0: seq<string>)
    returns (deps: map<Key, Dep>, ghost keys: set<Key>, seen: set<string>, todo: seq<string>)
    requires Entered(before, deps0, keys0, job) && Distinct(todo0) && Elements(todo0) <= seen0
    ensures Entered(before, deps, keys, job) && Distinct(todo)
    ensures seen == seen0 + found && Elements(todo) == Elements(todo0) + (found - seen0)
    ensures keys == keys0 + Files(found - seen0)
  {
    assert found - found - seen0 == {} && Files({}) == {};
    hide Entered, Files;
    deps, keys, seen, todo := deps0, keys0, seen0, todo0;
    var left := found;
    while left != {}
      invariant left <= found
      invariant Entered(before, deps, keys, job) && Distinct(todo)
      invariant seen == seen0 + (found - left) && Elements(todo) == Elements(todo0) + (found - left - seen0)
      invariant keys == keys0 + Files(found - left - seen0)
      decreases left
    {
      var dep :| dep in left;
      FilesNext(found, left, seen0, dep);
      if dep !in seen {
        EnterKey(before, deps, keys, job, File(dep));
        assert dep !in Elements(todo);
        assert Elements(todo + [dep]) == Elements(todo) + {dep};
        seen, todo := seen + {dep}, todo + [dep];
        deps, keys := Enter(deps, File(dep), job), keys + {File(dep)};
      }
      left := left - {dep};
    }
  }

  lemma FilesNext(found: set<string>, left: set<string>, seen: set<string>, dep: string)
    requires dep in left && left <= found
    ensures found - (left - {dep}) == found - left + {dep}
    ensures found - (left - {dep}) - seen == (found - left - seen) + if dep in seen then {} else {dep}
    ensures Files(found - (left - {dep}) - seen) == Files(found - left - seen) + if dep in seen then {} else {File(dep)}
  {
    assert found - (left - {dep}) - seen == (found - left - seen) + if dep in seen then {} else {dep};
  }

  /** The names this file loads and nobody has. */
  method TakeMissing(missing: set<string>, job: Job, ghost before: map<Key, Dep>, deps0: map<Key, Dep>,
                     ghost keys0: set<Key>)
    returns (deps: map<Key, Dep>, ghost keys: set<Key>)
    requires Entered(before, deps0, keys0, job)
    ensures Entered(before, deps, keys, job) && keys == keys0 + Names(missing)
  {
    hide Entered;
    deps, keys := deps0, keys0;
    var left := missing;
    while left != {}
      invariant left <= missing && Entered(before, deps, keys, job) && keys == keys0 + Names(missing - left)
      decreases left
    {
      var name :| name in left;
      EnterKey(before, deps, keys, job, Missing(name));
      deps, keys := Enter(deps, Missing(name), job), keys + {Missing(name)};
      assert missing - (left - {name}) == (missing - left) + {name};
      left := left - {name};
    }
  }

  /** Taking one file off the list and following it keeps the walk's invariants. */
  lemma FollowOne(local: string -> Loads, gate: string, f: string, seen: set<string>, todo: seq<string>,
                  keys: set<Key>, seen': set<string>, todo': seq<string>, keys': set<Key>)
    requires WalkInv(local, gate, seen, todo + [f]) && WalkKeys(local, keys, gate, seen, todo + [f])
    requires seen' == seen + local(f).found && Distinct(todo')
    requires Elements(todo') == Elements(todo) + (local(f).found - seen)
    requires keys' == keys + Files(local(f).found - seen) + Names(local(f).missing)
    ensures WalkInv(local, gate, seen', todo') && WalkKeys(local, keys', gate, seen', todo')
  {
    hide Reaches;
    var all := todo + [f];
    assert all[|todo|] == f;
    assert forall x :: x in all <==> x in todo || x == f;
    assert forall x :: x in todo' <==> x in Elements(todo');
    forall k | 0 <= k < |todo| ensures todo[k] != f {
      assert all[k] == todo[k] && all[k] != all[|todo|];
    }
    forall x | x in seen' ensures Reaches(local, gate, x) {
      if x !in seen { ReachesOn(local, gate, f, x); }
    }
    assert forall x :: x in seen' && x !in todo' <==> (x in seen && x !in all) || x == f;
  }

  /** The walk of one gate, last in first out. The files there are bound it. */
  method Walk(local: string -> Loads, job: Job, before: map<Key, Dep>, ghost files: set<string>)
    returns (deps: map<Key, Dep>)
    requires job.gate in files && forall f :: f in files ==> local(f).found <= files
    ensures Advanced(local, before, deps, job)
  {
    deps := before;
    ghost var keys: set<Key> := {};
    var seen, todo := {job.gate}, [job.gate];
    WalkStart(local, before, job);
    hide Reaches, Lists, Files, Names, WalkInv, WalkKeys, Entered;
    while todo != []
      invariant seen <= files && WalkInv(local, job.gate, seen, todo)
      invariant WalkKeys(local, keys, job.gate, seen, todo)
      invariant Entered(before, deps, keys, job)
      decreases files - seen, |todo|
    {
      var f := todo[|todo| - 1];
      ghost var keys0, seen0, todo0 := keys, seen, todo[..|todo| - 1];
      assert todo == todo0 + [f];
      WalkTop(local, job.gate, seen, todo0, f);
      todo := todo[..|todo| - 1];
      var loads := local(f);
      deps, keys, seen, todo := TakeFound(loads.found, job, before, deps, keys, seen, todo);
      deps, keys := TakeMissing(loads.missing, job, before, deps, keys);
      FollowOne(local, job.gate, f, seen0, todo0, keys0, seen, todo, keys);
      if seen == seen0 {
        assert Elements(todo) == Elements(todo0);
        SameCount(todo, todo0);
      }
    }
    WalkDone(local, job.gate, seen, keys);
    EntriesAfter(local, before, deps, keys, job);
  }

  lemma WalkStart(local: string -> Loads, before: map<Key, Dep>, job: Job)
    ensures WalkInv(local, job.gate, {job.gate}, [job.gate]) && WalkKeys(local, {}, job.gate, {job.gate}, [job.gate])
    ensures Entered(before, before, {}, job)
  {
    ReachesSelf(local, job.gate);
    hide Reaches;
  }

  lemma WalkTop(local: string -> Loads, gate: string, seen: set<string>, todo: seq<string>, f: string)
    requires WalkInv(local, gate, seen, todo + [f])
    ensures gate in seen && f in seen && Distinct(todo) && (forall k :: 0 <= k < |todo| ==> todo[k] in seen)
  {
    hide Reaches;
    var all := todo + [f];
    assert all[|todo|] == f && forall k :: 0 <= k < |todo| ==> all[k] == todo[k];
  }

  lemma SameCount(a: seq<string>, b: seq<string>)
    requires Distinct(a) && Distinct(b) && Elements(a) == Elements(b)
    ensures |a| == |b|
  {
    Count(a);
    Count(b);
  }

  lemma WalkDone(local: string -> Loads, gate: string, seen: set<string>, keys: set<Key>)
    requires WalkInv(local, gate, seen, []) && WalkKeys(local, keys, gate, seen, [])
    ensures forall key :: key in keys <==> Lists(local, gate, key)
  {
    assert forall x: string :: x !in [];
    assert forall f :: f in seen ==> local(f).found <= seen;
    forall d ensures Reaches(local, gate, d) <==> d in seen {
      if Reaches(local, gate, d) { ClosedHolds(local, seen, gate, d); }
    }
    hide Reaches;
    forall key ensures key in keys <==> Lists(local, gate, key) {
      match key
      case File(d) =>
      case Missing(m) => assert key in keys <==> exists f :: f in seen && m in local(f).missing;
    }
  }

  /** One walk more: the map is exact for it as well. */
  lemma ExactNext(local: string -> Loads, before: map<Key, Dep>, deps: map<Key, Dep>, jobs: seq<Job>, job: Job)
    requires Exact(local, before, jobs) && Advanced(local, before, deps, job)
    ensures Exact(local, deps, jobs + [job])
  {
    hide Lists, Walked, WalkedFrom, WalkedFor;
    forall key ensures Walked(local, jobs + [job], key) <==> Walked(local, jobs, key) || Lists(local, job.gate, key) {
      WalkedNext(local, jobs, job, key, "");
    }
    forall key, x
      ensures WalkedFrom(local, jobs + [job], key, x)
         <==> WalkedFrom(local, jobs, key, x) || (x == job.gate && Lists(local, job.gate, key))
      ensures WalkedFor(local, jobs + [job], key, x)
         <==> WalkedFor(local, jobs, key, x) || (x in job.owners && Lists(local, job.gate, key))
    {
      WalkedNext(local, jobs, job, key, x);
    }
    FromWalked(local, jobs);
  }

  lemma WalkedNext(local: string -> Loads, jobs: seq<Job>, job: Job, key: Key, x: string)
    ensures Walked(local, jobs + [job], key) <==> Walked(local, jobs, key) || Lists(local, job.gate, key)
    ensures WalkedFrom(local, jobs + [job], key, x)
       <==> WalkedFrom(local, jobs, key, x) || (x == job.gate && Lists(local, job.gate, key))
    ensures WalkedFor(local, jobs + [job], key, x)
       <==> WalkedFor(local, jobs, key, x) || (x in job.owners && Lists(local, job.gate, key))
  {
    hide Lists;
    var more := jobs + [job];
    assert more[|jobs|] == job && forall j :: 0 <= j < |jobs| ==> more[j] == jobs[j];
  }

  /** A walk of a gate, or for an owner, is a walk. */
  lemma FromWalked(local: string -> Loads, jobs: seq<Job>)
    ensures forall key, x ::
              WalkedFrom(local, jobs, key, x) || WalkedFor(local, jobs, key, x) ==> Walked(local, jobs, key)
  {
    hide Lists;
  }

  lemma EntriesAfter(local: string -> Loads, before: map<Key, Dep>, deps: map<Key, Dep>, keys: set<Key>, job: Job)
    requires Entered(before, deps, keys, job) && forall key :: key in keys <==> Lists(local, job.gate, key)
    ensures Advanced(local, before, deps, job)
  {
    hide Lists;
  }

  /** The gate scripts of one command. */
  method WalkCommand(local: string -> Loads, rec: Command, before: map<Key, Dep>, ghost jobs: seq<Job>,
                     ghost files: set<string>)
    returns (deps: map<Key, Dep>)
    requires Exact(local, before, jobs) && forall f :: f in files ==> local(f).found <= files
    requires forall k :: 0 <= k < |rec.scripts| ==> rec.scripts[k] in files
    ensures Exact(local, deps, jobs + JobsOf(rec.scripts, rec.owners))
  {
    hide Exact, Lists, Advanced, Script;
    deps := before;
    assert jobs + [] == jobs;
    for k := 0 to |rec.scripts|
      invariant Exact(local, deps, jobs + JobsOf(rec.scripts[..k], rec.owners))
    {
      assert rec.scripts[..k + 1][..k] == rec.scripts[..k];
      ghost var walked := JobsOf(rec.scripts[..k], rec.owners);
      if Script(rec.scripts[k]) {
        var job := Job(rec.scripts[k], rec.owners);
        ghost var last := deps;
        deps := Walk(local, job, deps, files);
        ExactNext(local, last, deps, jobs + walked, job);
        assert jobs + walked + [job] == jobs + (walked + [job]);
      } else {
        assert walked + [] == walked;
      }
    }
    assert rec.scripts[..|rec.scripts|] == rec.scripts;
  }

  /** The k-th script of the c-th command is this gate, a Python or a JavaScript file, and these are its owners. */
  ghost predicate GateAt(commands: seq<Command>, c: nat, k: nat, gate: string, owners: set<string>) {
    && c < |commands| && k < |commands[c].scripts| && gate == commands[c].scripts[k] && owners == commands[c].owners
    && (exists stem, end :: gate == stem + end && end in {".py", ".mjs", ".cjs", ".js"})
  }

  ghost predicate HasGate(commands: seq<Command>, gate: string, owners: set<string>) {
    exists c: nat, k: nat :: GateAt(commands, c, k, gate, owners)
  }

  /** What the map says of the commands: which entries it has, and the gates and the owners of each. */
  ghost predicate Maps(local: string -> Loads, deps: map<Key, Dep>, commands: seq<Command>) {
    && (forall key :: key in deps <==> exists g, os :: HasGate(commands, g, os) && Lists(local, g, key))
    && (forall key, g :: key in deps ==>
          (g in deps[key].gates <==> exists os :: HasGate(commands, g, os) && Lists(local, g, key)))
    && (forall key, o :: key in deps ==>
          (o in deps[key].owners <==> exists g, os :: HasGate(commands, g, os) && o in os && Lists(local, g, key)))
  }

  lemma ScriptExactly(gate: string)
    ensures Script(gate) <==> exists stem, end :: gate == stem + end && end in {".py", ".mjs", ".cjs", ".js"}
  {
    forall end ensures EndsWith(gate, end) <==> exists stem :: gate == stem + end {
      if EndsWith(gate, end) { assert gate == gate[..|gate| - |end|] + end; }
      forall stem | gate == stem + end ensures EndsWith(gate, end) {}
    }
    hide EndsWith;
  }

  /** A script of this command that is a gate's, with the command's owners. */
  predicate JobAt(c: Command, k: nat, job: Job) {
    k < |c.scripts| && Script(c.scripts[k]) && job == Job(c.scripts[k], c.owners)
  }

  lemma {:induction false} JobsAre(c: Command, n: nat, job: Job)
    requires n <= |c.scripts|
    ensures job in JobsOf(c.scripts[..n], c.owners) <==> exists k: nat :: k < n && JobAt(c, k, job)
  {
    hide Script;
    if n > 0 {
      assert c.scripts[..n][..n - 1] == c.scripts[..n - 1];
      JobsAre(c, n - 1, job);
      assert JobAt(c, n - 1, job) <==> Script(c.scripts[n - 1]) && job == Job(c.scripts[n - 1], c.owners);
    }
  }

  lemma {:induction false} AllJobsAre(commands: seq<Command>, job: Job)
    ensures job in AllJobs(commands) <==>
            exists c: nat, k: nat :: c < |commands| && JobAt(commands[c], k, job)
  {
    hide JobAt, JobsOf;
    if commands != [] {
      var n := |commands| - 1;
      AllJobsAre(commands[..n], job);
      LastJobs(commands, job);
      assert forall c: nat :: c < n ==> commands[..n][c] == commands[c];
      forall k: nat | JobAt(commands[n], k, job) ensures k < |commands[n].scripts| { InRange(commands[n], k, job); }
    }
  }

  lemma InRange(c: Command, k: nat, job: Job)
    requires JobAt(c, k, job)
    ensures k < |c.scripts|
  {}

  lemma LastJobs(commands: seq<Command>, job: Job)
    requires commands != []
    ensures var c := commands[|commands| - 1];
            job in AllJobs(commands)
            <==> job in AllJobs(commands[..|commands| - 1]) || exists k: nat :: k < |c.scripts| && JobAt(c, k, job)
  {
    var c := commands[|commands| - 1];
    assert c.scripts[..|c.scripts|] == c.scripts;
    JobsAre(c, |c.scripts|, job);
    hide JobsOf, JobAt;
  }

  lemma GatesAreJobs(commands: seq<Command>, gate: string, owners: set<string>)
    ensures Job(gate, owners) in AllJobs(commands) <==> HasGate(commands, gate, owners)
  {
    AllJobsAre(commands, Job(gate, owners));
    ScriptExactly(gate);
    hide Script, AllJobs;
    if c: nat, k: nat :| c < |commands| && JobAt(commands[c], k, Job(gate, owners)) {
      assert GateAt(commands, c, k, gate, owners);
    }
    if c: nat, k: nat :| GateAt(commands, c, k, gate, owners) {
      assert JobAt(commands[c], k, Job(gate, owners));
    }
  }

  lemma WalkedExactly(local: string -> Loads, commands: seq<Command>, key: Key, x: string)
    ensures var jobs := AllJobs(commands);
            && (Walked(local, jobs, key) <==> exists g, os :: HasGate(commands, g, os) && Lists(local, g, key))
            && (WalkedFrom(local, jobs, key, x) <==> exists os :: HasGate(commands, x, os) && Lists(local, x, key))
            && (WalkedFor(local, jobs, key, x)
                <==> exists g, os :: HasGate(commands, g, os) && x in os && Lists(local, g, key))
  {
    var jobs := AllJobs(commands);
    forall g, os ensures HasGate(commands, g, os) <==> exists j :: 0 <= j < |jobs| && jobs[j] == Job(g, os) {
      GatesAreJobs(commands, g, os);
    }
    hide Lists, HasGate, AllJobs;
    forall j | 0 <= j < |jobs| ensures HasGate(commands, jobs[j].gate, jobs[j].owners) {
      assert jobs[j] == Job(jobs[j].gate, jobs[j].owners);
    }
  }

  lemma ExactOnCommands(local: string -> Loads, deps: map<Key, Dep>, commands: seq<Command>)
    requires Exact(local, deps, AllJobs(commands))
    ensures Maps(local, deps, commands)
  {
    forall key, x
      ensures var jobs := AllJobs(commands);
              && (Walked(local, jobs, key) <==> exists g, os :: HasGate(commands, g, os) && Lists(local, g, key))
              && (WalkedFrom(local, jobs, key, x) <==> exists os :: HasGate(commands, x, os) && Lists(local, x, key))
              && (WalkedFor(local, jobs, key, x)
                  <==> exists g, os :: HasGate(commands, g, os) && x in os && Lists(local, g, key))
    {
      WalkedExactly(local, commands, key, x);
    }
    hide Walked, WalkedFrom, WalkedFor, HasGate, Lists, AllJobs;
  }

  /** dependency_map: every gate script of every command is walked. */
  method DependencyMap(local: string -> Loads, commands: seq<Command>, ghost files: set<string>)
    returns (deps: map<Key, Dep>)
    requires forall f :: f in files ==> local(f).found <= files
    requires forall c, k :: 0 <= c < |commands| && 0 <= k < |commands[c].scripts| ==> commands[c].scripts[k] in files
    ensures Exact(local, deps, AllJobs(commands))
    ensures Maps(local, deps, commands)
  {
    deps := map[];
    for c := 0 to |commands|
      invariant Exact(local, deps, AllJobs(commands[..c]))
    {
      hide Exact;
      deps := WalkCommand(local, commands[c], deps, AllJobs(commands[..c]), files);
      assert commands[..c + 1][..c] == commands[..c];
    }
    assert commands[..|commands|] == commands;
    ExactOnCommands(local, deps, commands);
    hide Exact, Maps;
  }
}
