/** Planning and executing a multi-file patch (internal/tools/patch.go): all or nothing. */
module PatchPlan {
  import opened Results
  import opened CheckpointStore
  import PatchEngine
  import UnifiedDiff

  // What one file of a patch will become. The result is written to target, which differs
  // from path on a move.
  datatype PlannedChange = PlannedChange(path: Path, target: Path, before: string, after: string,
                                         existed: bool, deleteIt: bool)

  // ---- Primitives, as they act on the disk ----

  function DiskWrite(d: Disk, p: Path, data: string, e: Env): (Disk, bool) {
    if e.outcome == Succeeds then (d[p := File(data, if p in d then d[p].mode else DEFAULT_MODE)], true) else (d, false)
  }

  function DiskCreate(d: Disk, p: Path, data: string, e: Env, m: nat): (Disk, bool) {
    if p in d || e.outcome.Fails? then (d, false)
    else if e.outcome.Leaves? then (d[p := File(e.outcome.left, m)], false)
    else (d[p := File(data, m)], true)
  }

  function DiskRemove(d: Disk, p: Path, e: Env): (Disk, bool) {
    if p in d && e.outcome == Succeeds then (d - {p}, true) else (d, false)
  }

  // What the environment does to each primitive in turn; after that, all goes well.
  function Next(envs: seq<Env>): Env {
    if envs == [] then Env(true, Succeeds) else envs[0]
  }

  function Rest(envs: seq<Env>): seq<Env> {
    if envs == [] then [] else envs[1..]
  }

  // ---- Execution ----

  // A step that was done, and how to undo it.
  datatype Done = Done(path: Path, content: string, existed: bool)

  datatype Progress = Progress(disk: Disk, done: seq<Done>, ok: bool, envs: seq<Env>)

  function ApplyOne(d: Disk, c: PlannedChange, done: seq<Done>, envs: seq<Env>, m: nat): Progress {
    var e, envs' := Next(envs), Rest(envs);
    if c.deleteIt then
      var (d1, ok) := DiskRemove(d, c.path, e);
      Progress(d1, if ok then done + [Done(c.path, c.before, true)] else done, ok, envs')
    else if c.target != c.path then
      var (d1, ok) := DiskCreate(d, c.target, c.after, e, m);
      if !ok then Progress(d1, done, false, envs')
      else
        var done1 := done + [Done(c.target, "", false)];
        var (d2, ok2) := DiskRemove(d1, c.path, Next(envs'));
        Progress(d2, if ok2 then done1 + [Done(c.path, c.before, true)] else done1, ok2, Rest(envs'))
    else if !c.existed then
      var (d1, ok) := DiskCreate(d, c.path, c.after, e, m);
      Progress(d1, if ok then done + [Done(c.path, "", false)] else done, ok, envs')
    else
      var (d1, ok) := DiskWrite(d, c.path, c.after, e);
      Progress(d1, if ok then done + [Done(c.path, c.before, true)] else done, ok, envs')
  }

  // The first n entries, stopping at the first that fails.
  function Forward(d: Disk, plan: seq<PlannedChange>, n: nat, envs: seq<Env>, m: nat): Progress
    requires n <= |plan|
  {
    if n == 0 then Progress(d, [], true, envs)
    else
      var p := Forward(d, plan, n - 1, envs, m);
      if p.ok then ApplyOne(p.disk, plan[n - 1], p.done, p.envs, m) else p
  }

  function UndoStep(d: Disk, u: Done, e: Env): (Disk, bool) {
    if u.existed then DiskWrite(d, u.path, u.content, e) else DiskRemove(d, u.path, e)
  }

  // Undoes the done steps, last first; the second result says whether every one succeeded.
  function Rollback(d: Disk, done: seq<Done>, envs: seq<Env>): (Disk, bool)
    decreases |done|
  {
    if done == [] then (d, true)
    else
      var (d1, ok) := UndoStep(d, Last(done), Next(envs));
      var (d2, clean) := Rollback(d1, Front(done), Rest(envs));
      (d2, ok && clean)
  }

  datatype PatchOutcome = Applied | RolledBack(clean: bool)

  function Execute(d: Disk, plan: seq<PlannedChange>, envs: seq<Env>, m: nat): (Disk, PatchOutcome) {
    var p := Forward(d, plan, |plan|, envs, m);
    if p.ok then (p.disk, Applied)
    else
      var (d', clean) := Rollback(p.disk, p.done, p.envs);
      (d', RolledBack(clean))
  }

  // ---- What is promised ----

  // What planning and the check before writing establish: no path twice, and every file that
  // existed is there with the content that was read. Targets may collide with anything.
  ghost predicate PlanFits(d: Disk, plan: seq<PlannedChange>) {
    && (forall i, j | 0 <= i < j < |plan| :: plan[i].path != plan[j].path)
    && (forall i | 0 <= i < |plan| :: EntryFits(d, plan[i]))
  }

  predicate EntryFits(d: Disk, c: PlannedChange) {
    && (c.existed ==> c.path in d && d[c.path].data == c.before)
    && (c.deleteIt ==> c.existed && c.target == c.path)
    && (c.target != c.path ==> c.existed)
  }

  function At(d: Disk, p: Path): Option<File> {
    if p in d then Some(d[p]) else None
  }

  // The last of the first n entries that leaves its result at p.
  function Writer(plan: seq<PlannedChange>, n: nat, p: Path): (r: Option<nat>)
    requires n <= |plan|
    ensures r.Some? ==> r.value < n && plan[r.value].target == p && !plan[r.value].deleteIt
  {
    if n == 0 then None
    else if plan[n - 1].target == p && !plan[n - 1].deleteIt then Some(n - 1)
    else Writer(plan, n - 1, p)
  }

  // The paths the first n entries delete or move away.
  function Vacated(plan: seq<PlannedChange>, n: nat): set<Path>
    requires n <= |plan|
  {
    if n == 0 then {}
    else
      var c := plan[n - 1];
      Vacated(plan, n - 1) + if c.deleteIt || c.target != c.path then {c.path} else {}
  }

  // What the plan says becomes of p.
  function PlannedAt(d: Disk, plan: seq<PlannedChange>, n: nat, m: nat, p: Path): Option<File>
    requires n <= |plan|
  {
    match Writer(plan, n, p)
    case Some(k) =>
      var c := plan[k];
      Some(File(c.after, if c.target == c.path && c.existed && p in d then d[p].mode else m))
    case None => if p in Vacated(plan, n) then None else At(d, p)
  }

  // How many entries went well before the one that failed, if one did.
  function Reached(d: Disk, plan: seq<PlannedChange>, n: nat, envs: seq<Env>, m: nat): (k: nat)
    requires n <= |plan|
    ensures k <= n
  {
    if n == 0 then 0 else if Forward(d, plan, n, envs, m).ok then n else Reached(d, plan, n - 1, envs, m)
  }

  // The entry starts by creating its target, and leaves a file there although the create fails.
  predicate LeavesBehind(d: Disk, c: PlannedChange, e: Env) {
    e.outcome.Leaves? && !c.deleteIt && (c.target != c.path || !c.existed) && c.target !in d
  }

  // The file that the failing step left and did not record, and what it holds.
  function LeftBehind(d: Disk, plan: seq<PlannedChange>, n: nat, envs: seq<Env>, m: nat): Option<(Path, string)>
    requires n <= |plan|
  {
    var k := Reached(d, plan, n, envs, m);
    var p := Forward(d, plan, k, envs, m);
    var e := Next(p.envs);
    if k < n && LeavesBehind(p.disk, plan[k], e) then Some((plan[k].target, e.outcome.left)) else None
  }

  // What a rollback whose own steps succeed leaves at p: the original content; the original mode, but for a file
  // that a step had removed, which comes back with the default mode, or with that of the file left behind in its
  // place; and, where there was no file, none but the one left behind.
  function RolledBackAt(d: Disk, plan: seq<PlannedChange>, envs: seq<Env>, m: nat, p: Path): Option<File> {
    var left := LeftBehind(d, plan, |plan|, envs, m);
    var here := left.Some? && left.value.0 == p;
    if p in d then
      var removed := p in Vacated(plan, Reached(d, plan, |plan|, envs, m));
      Some(File(d[p].data, if !removed then d[p].mode else if here then m else DEFAULT_MODE))
    else if here then Some(File(left.value.1, m))
    else None
  }

  ghost predicate SameContents(a: Disk, b: Disk) {
    forall p :: Content(a, p) == Content(b, p)
  }

  ghost predicate InFootprint(plan: seq<PlannedChange>, p: Path) {
    exists k :: 0 <= k < |plan| && (plan[k].path == p || plan[k].target == p)
  }

  // ---- Undoing exactly ----

  function Unwind1(d: Disk, u: Done): Disk {
    UndoStep(d, u, Env(true, Succeeds)).0
  }

  function Unwind(d: Disk, done: seq<Done>): Disk
    decreases |done|
  {
    if done == [] then d else Unwind(Unwind1(d, Last(done)), Front(done))
  }

  lemma {:induction false} CleanRollback(d: Disk, done: seq<Done>, envs: seq<Env>)
    ensures var (r, clean) := Rollback(d, done, envs); clean ==> r == Unwind(d, done)
    decreases |done|
  {
    if done != [] {
      var (d1, ok) := UndoStep(d, Last(done), Next(envs));
      CleanRollback(d1, Front(done), Rest(envs));
    }
  }

  // The done steps on one path, in order.
  function Trail(done: seq<Done>, p: Path): seq<Done>
    decreases |done|
  {
    if done == [] then [] else Trail(Front(done), p) + if Last(done).path == p then [Last(done)] else []
  }

  // One file as its steps are undone.
  function Back(f: Option<File>, trail: seq<Done>): Option<File>
    decreases |trail|
  {
    if trail == [] then f
    else
      var u := Last(trail);
      Back(if u.existed then Some(File(u.content, if f.Some? then f.value.mode else DEFAULT_MODE))
           else None, Front(trail))
  }

  lemma {:induction false} UnwindByPath(d: Disk, done: seq<Done>, p: Path)
    ensures At(Unwind(d, done), p) == Back(At(d, p), Trail(done, p))
    decreases |done|
  {
    if done != [] {
      UnwindByPath(Unwind1(d, Last(done)), Front(done), p);
      if Last(done).path == p {
        BackStep(At(d, p), Trail(Front(done), p), Last(done));
      } else {
        assert Trail(done, p) == Trail(Front(done), p);
      }
    }
  }

  lemma BackStep(f: Option<File>, trail: seq<Done>, u: Done)
    ensures Back(f, trail + [u])
         == Back(if u.existed then Some(File(u.content, if f.Some? then f.value.mode else DEFAULT_MODE))
                 else None, trail)
  {
    assert Front(trail + [u]) == trail;
  }

  lemma TrailMore(done: seq<Done>, u: Done, p: Path)
    ensures Trail(done + [u], p) == Trail(done, p) + if u.path == p then [u] else []
  {
    assert Front(done + [u]) == done;
  }

  // ---- What has been done to each path ----

  predicate Reaches(plan: seq<PlannedChange>, n: nat, p: Path)
    requires n <= |plan|
  {
    exists k | 0 <= k < n :: plan[k].path == p
  }

  // A file that was there was left alone, written, removed, or removed and then moved onto; one that was not there was
  // left alone or created.
  predicate PathFits(d0: Disk, plan: seq<PlannedChange>, n: nat, f: Option<File>, trail: seq<Done>, p: Path)
    requires n <= |plan|
  {
    if p in d0 then
      var w := Done(p, d0[p].data, true);
      if p in Vacated(plan, n) then (trail == [w] && f.None?) || (trail == [w, Done(p, "", false)] && f.Some?)
      else
        && f.Some? && f.value.mode == d0[p].mode
        && ((trail == [] && f.value == d0[p]) || (trail == [w] && Reaches(plan, n, p)))
    else (trail == [] && f.None?) || (trail == [Done(p, "", false)] && f.Some?)
  }

  ghost predicate AllFit(d0: Disk, plan: seq<PlannedChange>, n: nat, d: Disk, done: seq<Done>) {
    n <= |plan| && forall p :: PathFits(d0, plan, n, At(d, p), Trail(done, p), p)
  }

  lemma {:induction false} VacatedIsReached(plan: seq<PlannedChange>, n: nat, p: Path)
    requires n <= |plan| && p in Vacated(plan, n)
    ensures Reaches(plan, n, p)
  {
    if p in Vacated(plan, n - 1) {
      VacatedIsReached(plan, n - 1, p);
    } else {
      assert plan[n - 1].path == p;
    }
  }

  // An entry that touches neither p nor changes what is known of it.
  lemma OtherPath(d0: Disk, plan: seq<PlannedChange>, n: nat, f: Option<File>, trail: seq<Done>, p: Path)
    requires n < |plan| && PathFits(d0, plan, n, f, trail, p) && p != plan[n].path
    ensures PathFits(d0, plan, n + 1, f, trail, p)
  {
  }

  // Nothing has happened yet to the path of an entry still to come, if its file was there.
  lemma Unreached(d0: Disk, plan: seq<PlannedChange>, n: nat, f: Option<File>, trail: seq<Done>)
    requires n < |plan| && PlanFits(d0, plan) && plan[n].existed && PathFits(d0, plan, n, f, trail, plan[n].path)
    ensures trail == [] && f == Some(d0[plan[n].path]) && d0[plan[n].path].data == plan[n].before
    ensures plan[n].path in d0 && plan[n].path !in Vacated(plan, n)
  {
    assert EntryFits(d0, plan[n]);
    if plan[n].path in Vacated(plan, n) {
      VacatedIsReached(plan, n, plan[n].path);
    }
  }

  lemma RemoveFits(d0: Disk, plan: seq<PlannedChange>, n: nat, d: Disk, done: seq<Done>)
    requires n < |plan| && PlanFits(d0, plan) && AllFit(d0, plan, n, d, done)
    requires plan[n].deleteIt || plan[n].target != plan[n].path
    ensures AllFit(d0, plan, n + 1, d - {plan[n].path}, done + [Done(plan[n].path, plan[n].before, true)])
  {
    hide PlanFits;
    var c, u := plan[n], Done(plan[n].path, plan[n].before, true);
    assert c.existed by { EntryExisted(d0, plan, n); }
    assert PathFits(d0, plan, n, At(d, c.path), Trail(done, c.path), c.path);
    Unreached(d0, plan, n, At(d, c.path), Trail(done, c.path));
    forall p ensures PathFits(d0, plan, n + 1, At(d - {c.path}, p), Trail(done + [u], p), p) {
      assert PathFits(d0, plan, n, At(d, p), Trail(done, p), p);
      TrailMore(done, u, p);
      if p != c.path {
        OtherPath(d0, plan, n, At(d, p), Trail(done, p), p);
      }
    }
  }

  lemma EntryExisted(d0: Disk, plan: seq<PlannedChange>, n: nat)
    requires n < |plan| && PlanFits(d0, plan) && (plan[n].deleteIt || plan[n].target != plan[n].path)
    ensures plan[n].existed
  {
    assert EntryFits(d0, plan[n]);
  }

  // A create needs its path free, so nothing was there or what was there has been removed.
  lemma CreateFits(d0: Disk, plan: seq<PlannedChange>, n: nat, d: Disk, done: seq<Done>, q: Path, f: File)
    requires AllFit(d0, plan, n, d, done) && q !in d
    ensures AllFit(d0, plan, n, d[q := f], done + [Done(q, "", false)])
  {
    hide Reaches;
    var u := Done(q, "", false);
    forall p ensures PathFits(d0, plan, n, At(d[q := f], p), Trail(done + [u], p), p) {
      assert PathFits(d0, plan, n, At(d, p), Trail(done, p), p);
      TrailMore(done, u, p);
    }
  }

  lemma WriteFits(d0: Disk, plan: seq<PlannedChange>, n: nat, d: Disk, done: seq<Done>, data: string)
    requires n < |plan| && PlanFits(d0, plan) && AllFit(d0, plan, n, d, done)
    requires plan[n].existed && !plan[n].deleteIt && plan[n].target == plan[n].path
    ensures var q := plan[n].path;
      q in d && AllFit(d0, plan, n + 1, d[q := File(data, d[q].mode)], done + [Done(q, plan[n].before, true)])
  {
    hide PlanFits;
    var q, u := plan[n].path, Done(plan[n].path, plan[n].before, true);
    assert PathFits(d0, plan, n, At(d, q), Trail(done, q), q);
    Unreached(d0, plan, n, At(d, q), Trail(done, q));
    forall p ensures PathFits(d0, plan, n + 1, At(d[q := File(data, d[q].mode)], p), Trail(done + [u], p), p) {
      assert PathFits(d0, plan, n, At(d, p), Trail(done, p), p);
      TrailMore(done, u, p);
      if p != q {
        OtherPath(d0, plan, n, At(d, p), Trail(done, p), p);
      } else {
        assert plan[n].path == p;
      }
    }
  }

  lemma SameVacated(d0: Disk, plan: seq<PlannedChange>, n: nat, d: Disk, done: seq<Done>)
    requires n < |plan| && AllFit(d0, plan, n, d, done) && !plan[n].deleteIt && plan[n].target == plan[n].path
    ensures AllFit(d0, plan, n + 1, d, done)
  {
    forall p ensures PathFits(d0, plan, n + 1, At(d, p), Trail(done, p), p) {
      assert PathFits(d0, plan, n, At(d, p), Trail(done, p), p);
      if Reaches(plan, n, p) {
        var k :| 0 <= k < n && plan[k].path == p;
        assert plan[k].path == p;
      }
    }
  }

  // The entry went well.
  lemma EntryDone(d0: Disk, plan: seq<PlannedChange>, n: nat, d: Disk, done: seq<Done>, envs: seq<Env>, m: nat)
    requires n < |plan| && PlanFits(d0, plan) && AllFit(d0, plan, n, d, done)
    requires ApplyOne(d, plan[n], done, envs, m).ok
    ensures var r := ApplyOne(d, plan[n], done, envs, m); AllFit(d0, plan, n + 1, r.disk, r.done)
  {
    hide AllFit, PlanFits;
    var c := plan[n];
    if c.deleteIt {
      RemoveFits(d0, plan, n, d, done);
    } else if c.target != c.path {
      CreateFits(d0, plan, n, d, done, c.target, File(c.after, m));
      RemoveFits(d0, plan, n, d[c.target := File(c.after, m)], done + [Done(c.target, "", false)]);
    } else if !c.existed {
      CreateFits(d0, plan, n, d, done, c.path, File(c.after, m));
      SameVacated(d0, plan, n, d[c.path := File(c.after, m)], done + [Done(c.path, "", false)]);
    } else {
      WriteFits(d0, plan, n, d, done, c.after);
    }
  }

  // The entry failed: what it did is recorded, but for a file it left behind.
  lemma EntryFailed(d0: Disk, plan: seq<PlannedChange>, n: nat, d: Disk, done: seq<Done>, envs: seq<Env>, m: nat)
    returns (x: Disk)
    requires n < |plan| && AllFit(d0, plan, n, d, done)
    requires !ApplyOne(d, plan[n], done, envs, m).ok
    ensures var r := ApplyOne(d, plan[n], done, envs, m);
      && AllFit(d0, plan, n, x, r.done)
      && if LeavesBehind(d, plan[n], Next(envs))
         then x == d && r.disk == d[plan[n].target := File(Next(envs).outcome.left, m)]
         else x == r.disk
  {
    hide AllFit;
    var c := plan[n];
    x := d;
    if !c.deleteIt && c.target != c.path && DiskCreate(d, c.target, c.after, Next(envs), m).1 {
      CreateFits(d0, plan, n, d, done, c.target, File(c.after, m));
      x := d[c.target := File(c.after, m)];
    }
  }

  // ---- Each step ----

  // The entries still to come find their files as they were.
  ghost predicate Pending(d0: Disk, d: Disk, plan: seq<PlannedChange>, n: nat) {
    n <= |plan| && forall l | n <= l < |plan| && plan[l].existed ::
      At(d, plan[l].path) == At(d0, plan[l].path) && Writer(plan, n, plan[l].path).None? &&
      plan[l].path !in Vacated(plan, n)
  }

  ghost predicate AsPlanned(d0: Disk, d: Disk, plan: seq<PlannedChange>, n: nat, m: nat) {
    n <= |plan| && forall p :: At(d, p) == PlannedAt(d0, plan, n, m, p)
  }

  // What one entry did to the disk when it went well.
  function Effect(d: Disk, c: PlannedChange, m: nat): Disk {
    if c.deleteIt then d - {c.path}
    else if c.target != c.path then d[c.target := File(c.after, m)] - {c.path}
    else if !c.existed then d[c.path := File(c.after, m)]
    else d[c.path := File(c.after, if c.path in d then d[c.path].mode else DEFAULT_MODE)]
  }

  lemma ApplyOneEffect(d: Disk, c: PlannedChange, done: seq<Done>, envs: seq<Env>, m: nat)
    requires c.existed ==> c.path in d && d[c.path].data == c.before
    requires EntryFits(d, c)
    ensures var r := ApplyOne(d, c, done, envs, m);
            && (r.ok ==>
                  r.disk == Effect(d, c, m) && (!c.deleteIt && (c.target != c.path || !c.existed) ==> c.target !in d))
            && forall p | p != c.path && p != c.target :: At(r.disk, p) == At(d, p)
  {
  }

  // The planned disk, one entry further.
  lemma PlannedStep(d0: Disk, d: Disk, plan: seq<PlannedChange>, n: nat, m: nat)
    requires n < |plan| && AsPlanned(d0, d, plan, n, m) && Pending(d0, d, plan, n) && EntryFits(d, plan[n])
    requires var c := plan[n]; !c.deleteIt && (c.target != c.path || !c.existed) ==> c.target !in d
    ensures AsPlanned(d0, Effect(d, plan[n], m), plan, n + 1, m)
  {
    var c := plan[n];
    var r := Effect(d, c, m);
    forall p ensures At(r, p) == PlannedAt(d0, plan, n + 1, m, p) {
      assert At(d, p) == PlannedAt(d0, plan, n, m, p);
      assert c.existed ==> At(d, c.path) == At(d0, c.path) && Writer(plan, n, c.path).None?;
    }
  }

  lemma PendingStep(d0: Disk, d: Disk, plan: seq<PlannedChange>, n: nat, m: nat)
    requires n < |plan| && PlanFits(d0, plan) && Pending(d0, d, plan, n) && EntryFits(d, plan[n])
    requires var c := plan[n]; !c.deleteIt && (c.target != c.path || !c.existed) ==> c.target !in d
    ensures Pending(d0, Effect(d, plan[n], m), plan, n + 1)
  {
    var c := plan[n];
    forall l | n + 1 <= l < |plan| && plan[l].existed
      ensures At(Effect(d, c, m), plan[l].path) == At(d0, plan[l].path)
      ensures Writer(plan, n + 1, plan[l].path).None? && plan[l].path !in Vacated(plan, n + 1)
    {
      assert At(d, plan[l].path) == At(d0, plan[l].path);
      assert EntryFits(d0, plan[l]);
      assert plan[l].path in d;
      assert plan[l].path != c.path;
    }
  }

  lemma PendingFits(d0: Disk, d: Disk, plan: seq<PlannedChange>, n: nat)
    requires n < |plan| && PlanFits(d0, plan) && Pending(d0, d, plan, n)
    ensures EntryFits(d, plan[n])
  {
    assert EntryFits(d0, plan[n]);
    assert plan[n].existed ==> At(d, plan[n].path) == At(d0, plan[n].path);
  }

  // No two of the first n entries leave their results in one file.
  ghost predicate DistinctResults(plan: seq<PlannedChange>, n: nat) {
    n <= |plan| &&
    forall i, j | 0 <= i < j < n && !plan[i].deleteIt && !plan[j].deleteIt :: plan[i].target != plan[j].target
  }

  lemma {:induction false} WriterFinds(plan: seq<PlannedChange>, n: nat, i: nat)
    requires i < n <= |plan| && !plan[i].deleteIt
    ensures Writer(plan, n, plan[i].target).Some?
  {
    if i < n - 1 {
      WriterFinds(plan, n - 1, i);
    }
  }

  lemma ResultsStep(d0: Disk, d: Disk, plan: seq<PlannedChange>, n: nat, m: nat)
    requires n < |plan| && DistinctResults(plan, n) && AsPlanned(d0, d, plan, n, m) && Pending(d0, d, plan, n)
    requires var c := plan[n]; !c.deleteIt && (c.target != c.path || !c.existed) ==> c.target !in d
    ensures DistinctResults(plan, n + 1)
  {
    forall i | 0 <= i < n && !plan[i].deleteIt && !plan[n].deleteIt ensures plan[i].target != plan[n].target {
      WriterFinds(plan, n, i);
      assert At(d, plan[n].target) == PlannedAt(d0, plan, n, m, plan[n].target);
    }
  }

  // The first n entries went well: the disk is as planned so far, and every path's steps are known.
  ghost predicate Holding(d0: Disk, plan: seq<PlannedChange>, n: nat, m: nat, r: Progress)
    requires n <= |plan|
  {
    && AsPlanned(d0, r.disk, plan, n, m) && Pending(d0, r.disk, plan, n) && DistinctResults(plan, n)
    && AllFit(d0, plan, n, r.disk, r.done)
  }

  lemma HoldingStep(d0: Disk, plan: seq<PlannedChange>, n: nat, m: nat, r: Progress)
    requires n < |plan| && PlanFits(d0, plan) && Holding(d0, plan, n, m, r)
    requires ApplyOne(r.disk, plan[n], r.done, r.envs, m).ok
    ensures Holding(d0, plan, n + 1, m, ApplyOne(r.disk, plan[n], r.done, r.envs, m))
  {
    hide AsPlanned, Pending, ApplyOne, Effect, EntryFits, PlanFits, Writer, DistinctResults, AllFit;
    var c := plan[n];
    PendingFits(d0, r.disk, plan, n);
    assert c.existed ==> c.path in r.disk && r.disk[c.path].data == c.before by { FitsMeans(r.disk, c); }
    ApplyOneEffect(r.disk, c, r.done, r.envs, m);
    PlannedStep(d0, r.disk, plan, n, m);
    PendingStep(d0, r.disk, plan, n, m);
    ResultsStep(d0, r.disk, plan, n, m);
    EntryDone(d0, plan, n, r.disk, r.done, r.envs, m);
  }

  lemma FitsMeans(d: Disk, c: PlannedChange)
    requires EntryFits(d, c)
    ensures c.existed ==> c.path in d && d[c.path].data == c.before
  {
  }

  lemma HoldingStart(d0: Disk, plan: seq<PlannedChange>, envs: seq<Env>, m: nat)
    ensures Holding(d0, plan, 0, m, Forward(d0, plan, 0, envs, m))
  {
    forall p ensures PathFits(d0, plan, 0, At(d0, p), Trail([], p), p) {
    }
  }

  lemma {:induction false} ForwardHolds(d0: Disk, plan: seq<PlannedChange>, n: nat, envs: seq<Env>, m: nat)
    requires n <= |plan| && PlanFits(d0, plan) && Forward(d0, plan, n, envs, m).ok
    ensures Holding(d0, plan, n, m, Forward(d0, plan, n, envs, m))
  {
    hide Holding, PlanFits, ApplyOne;
    if n == 0 {
      HoldingStart(d0, plan, envs, m);
    } else {
      ForwardHolds(d0, plan, n - 1, envs, m);
      HoldingStep(d0, plan, n - 1, m, Forward(d0, plan, n - 1, envs, m));
    }
  }

  // Where a plan that fails stops.
  lemma {:induction false} StopsAtReached(d: Disk, plan: seq<PlannedChange>, n: nat, envs: seq<Env>, m: nat)
    requires n <= |plan| && !Forward(d, plan, n, envs, m).ok
    ensures var k := Reached(d, plan, n, envs, m); var p := Forward(d, plan, k, envs, m);
      k < n && p.ok && Forward(d, plan, n, envs, m) == ApplyOne(p.disk, plan[k], p.done, p.envs, m)
  {
    hide ApplyOne;
    if !Forward(d, plan, n - 1, envs, m).ok {
      StopsAtReached(d, plan, n - 1, envs, m);
    }
  }

  // What undoing every recorded step gives at p.
  lemma UndoneAt(d0: Disk, plan: seq<PlannedChange>, n: nat, f: Option<File>, trail: seq<Done>, p: Path)
    requires n <= |plan| && PathFits(d0, plan, n, f, trail, p)
    ensures Back(f, trail) == if p !in d0 then None
      else Some(File(d0[p].data, if p in Vacated(plan, n) then DEFAULT_MODE else d0[p].mode))
    ensures f.None? && p in d0 ==> p in Vacated(plan, n)
    ensures f.None? ==>
              forall g: File :: Back(Some(g), trail) == if p !in d0 then Some(g) else Some(File(d0[p].data, g.mode))
  {
    if p in d0 {
      var w := Done(p, d0[p].data, true);
      assert [w] == [] + [w] && [w, Done(p, "", false)] == [w] + [Done(p, "", false)];
      BackStep(f, [w], Done(p, "", false));
      BackStep(f, [], w);
      BackStep(None, [], w);
      forall g: File ensures Back(Some(g), [w]) == Some(File(d0[p].data, g.mode)) {
        BackStep(Some(g), [], w);
      }
    } else {
      assert [Done(p, "", false)] == [] + [Done(p, "", false)];
      BackStep(f, [], Done(p, "", false));
    }
  }

  lemma FailureUnwinds(d0: Disk, plan: seq<PlannedChange>, envs: seq<Env>, m: nat, p: Path)
    requires PlanFits(d0, plan) && !Forward(d0, plan, |plan|, envs, m).ok
    ensures var r := Forward(d0, plan, |plan|, envs, m);
            At(Unwind(r.disk, r.done), p) == RolledBackAt(d0, plan, envs, m, p)
  {
    hide Unwind, Back, Trail, PathFits, AsPlanned, Pending, DistinctResults, Forward, Reached, Vacated, PlanFits;
    hide ApplyOne;
    var r := Forward(d0, plan, |plan|, envs, m);
    var k := Reached(d0, plan, |plan|, envs, m);
    StopsAtReached(d0, plan, |plan|, envs, m);
    ForwardHolds(d0, plan, k, envs, m);
    var f := Forward(d0, plan, k, envs, m);
    var x := EntryFailed(d0, plan, k, f.disk, f.done, f.envs, m);
    UnwindByPath(r.disk, r.done, p);
    UndoneAt(d0, plan, k, At(x, p), Trail(r.done, p), p);
  }

  // ---- Frame of the rollback ----

  ghost predicate DoneInFootprint(plan: seq<PlannedChange>, done: seq<Done>) {
    forall k | 0 <= k < |done| :: InFootprint(plan, done[k].path)
  }

  lemma ApplyOneDone(d: Disk, plan: seq<PlannedChange>, k: nat, done: seq<Done>, envs: seq<Env>, m: nat)
    requires k < |plan| && DoneInFootprint(plan, done)
    ensures DoneInFootprint(plan, ApplyOne(d, plan[k], done, envs, m).done)
  {
    hide DiskCreate, DiskRemove, DiskWrite;
    assert InFootprint(plan, plan[k].path) && InFootprint(plan, plan[k].target);
  }

  lemma {:induction false} ForwardDone(d: Disk, plan: seq<PlannedChange>, n: nat, envs: seq<Env>, m: nat)
    requires n <= |plan|
    ensures DoneInFootprint(plan, Forward(d, plan, n, envs, m).done)
  {
    hide ApplyOne;
    if n > 0 {
      ForwardDone(d, plan, n - 1, envs, m);
      var p := Forward(d, plan, n - 1, envs, m);
      ApplyOneDone(p.disk, plan, n - 1, p.done, p.envs, m);
    }
  }

  lemma {:induction false} RollbackFrame(d: Disk, done: seq<Done>, envs: seq<Env>, plan: seq<PlannedChange>, p: Path)
    requires DoneInFootprint(plan, done) && !InFootprint(plan, p)
    ensures At(Rollback(d, done, envs).0, p) == At(d, p)
    decreases |done|
  {
    if done != [] {
      var (d1, ok) := UndoStep(d, Last(done), Next(envs));
      assert Last(done).path != p;
      RollbackFrame(d1, Front(done), Rest(envs), plan, p);
    }
  }

  // ---- All or nothing ----

  lemma {:induction false} ForwardFrame(d: Disk, plan: seq<PlannedChange>, n: nat, envs: seq<Env>, m: nat, p: Path)
    requires n <= |plan| && !InFootprint(plan, p)
    ensures At(Forward(d, plan, n, envs, m).disk, p) == At(d, p)
  {
    hide ApplyOne;
    if n > 0 {
      ForwardFrame(d, plan, n - 1, envs, m, p);
      var f := Forward(d, plan, n - 1, envs, m);
      assert plan[n - 1].path != p && plan[n - 1].target != p;
      ApplyOneFrame(f.disk, plan[n - 1], f.done, f.envs, m, p);
    }
  }

  lemma ApplyOneFrame(d: Disk, c: PlannedChange, done: seq<Done>, envs: seq<Env>, m: nat, p: Path)
    requires p != c.path && p != c.target
    ensures At(ApplyOne(d, c, done, envs, m).disk, p) == At(d, p)
  {
  }

  // Whatever step fails and however, and whatever the targets collide with: either every file is as planned, and
  // then no two results went to one file; or, when the rollback's own steps succeed, every path holds exactly what
  // RolledBackAt says. In any case nothing outside the plan's paths and targets is touched.
  lemma AllOrNothing(d: Disk, plan: seq<PlannedChange>, envs: seq<Env>, m: nat)
    requires PlanFits(d, plan)
    ensures var (r, outcome) := Execute(d, plan, envs, m);
            && (outcome == Applied ==> AsPlanned(d, r, plan, |plan|, m) && DistinctResults(plan, |plan|))
            && (outcome == RolledBack(true) ==> forall p :: At(r, p) == RolledBackAt(d, plan, envs, m, p))
            && (forall p | !InFootprint(plan, p) :: At(r, p) == At(d, p))
  {
    hide AsPlanned, Pending, Unwind, PlanFits, Forward, Rollback, DoneInFootprint, DistinctResults, RolledBackAt;
    hide AllFit;
    var f := Forward(d, plan, |plan|, envs, m);
    forall p | !InFootprint(plan, p) ensures At(f.disk, p) == At(d, p) {
      ForwardFrame(d, plan, |plan|, envs, m, p);
    }
    if f.ok {
      ForwardHolds(d, plan, |plan|, envs, m);
    } else {
      CleanRollback(f.disk, f.done, f.envs);
      ForwardDone(d, plan, |plan|, envs, m);
      forall p ensures At(Unwind(f.disk, f.done), p) == RolledBackAt(d, plan, envs, m, p) {
        FailureUnwinds(d, plan, envs, m, p);
      }
      forall p | !InFootprint(plan, p) ensures At(Rollback(f.disk, f.done, f.envs).0, p) == At(d, p) {
        RollbackFrame(f.disk, f.done, f.envs, plan, p);
      }
    }
  }

  // A clean rollback gives every content back if and only if the failing step was not a create that left its file
  // behind where the plan found none. Then that file, with what was left in it, is the only one too many.
  lemma CleanExactlyUnlessLeftBehind(d: Disk, plan: seq<PlannedChange>, envs: seq<Env>, m: nat)
    requires PlanFits(d, plan) && Execute(d, plan, envs, m).1 == RolledBack(true)
    ensures var (r, left) := (Execute(d, plan, envs, m).0, LeftBehind(d, plan, |plan|, envs, m));
      && (SameContents(r, d) <==> !(left.Some? && left.value.0 !in d))
      && (forall p | left.None? || left.value.0 != p :: Content(r, p) == Content(d, p))
      && (left.Some? && left.value.0 !in d ==> Content(r, left.value.0) == Some(left.value.1))
  {
    hide PlanFits, Execute, LeftBehind, Reached, Vacated;
    AllOrNothing(d, plan, envs, m);
    var (r, left) := (Execute(d, plan, envs, m).0, LeftBehind(d, plan, |plan|, envs, m));
    forall p
      ensures Content(r, p) == if left.Some? && left.value.0 == p && p !in d then Some(left.value.1) else Content(d, p)
    {
      assert At(r, p) == RolledBackAt(d, plan, envs, m, p);
    }
  }

  // After a clean rollback a file that was there has its mode again, but for exactly the files that a step had removed.
  lemma ModesAfterRollback(d: Disk, plan: seq<PlannedChange>, envs: seq<Env>, m: nat, p: Path)
    requires PlanFits(d, plan) && Execute(d, plan, envs, m).1 == RolledBack(true) && p in d
    ensures p in Execute(d, plan, envs, m).0
    ensures Execute(d, plan, envs, m).0[p].mode ==
            if p !in Vacated(plan, Reached(d, plan, |plan|, envs, m)) then d[p].mode
            else var left := LeftBehind(d, plan, |plan|, envs, m);
              if left.Some? && left.value.0 == p then m else DEFAULT_MODE
  {
    hide PlanFits, Execute, LeftBehind, Reached, Vacated;
    AllOrNothing(d, plan, envs, m);
    assert At(Execute(d, plan, envs, m).0, p) == RolledBackAt(d, plan, envs, m, p);
  }

  // It does happen: a deleted file comes back with another mode, and a file that was not there stays behind.
  lemma RollbackFallsShort()
    ensures var plan := [PlannedChange("x", "x", "a", "", true, true), PlannedChange("f", "f", "", "b", false, false)];
      var (d, envs) := (map["x" := File("a", 493)], [Env(true, Succeeds), Env(true, Leaves("b"))]);
      var (r, outcome) := Execute(d, plan, envs, DEFAULT_MODE);
      && PlanFits(d, plan) && outcome == RolledBack(true)
      && r == map["x" := File("a", DEFAULT_MODE), "f" := File("b", DEFAULT_MODE)]
  {
    var plan := [PlannedChange("x", "x", "a", "", true, true), PlannedChange("f", "f", "", "b", false, false)];
    var d := map["x" := File("a", 493)];
    var envs := [Env(true, Succeeds), Env(true, Leaves("b"))];
    var u := Done("x", "a", true);
    assert Forward(d, plan, 0, envs, DEFAULT_MODE) == Progress(d, [], true, envs);
    assert d - {"x"} == map[];
    assert Forward(d, plan, 1, envs, DEFAULT_MODE) == Progress(map[], [u], true, [Env(true, Leaves("b"))]);
    var f := Forward(d, plan, 2, envs, DEFAULT_MODE);
    assert f == Progress(map["f" := File("b", DEFAULT_MODE)], [u], false, []);
    assert Front([u]) == [];
    assert Rollback(f.disk, [u], []).0 == f.disk["x" := File("a", DEFAULT_MODE)];
  }

  // ---- Planning ----

  datatype PlanError =
    | NotWritable(name: string)
    | Twice(path: Path)
    | AlreadyExists(path: Path)
    | CannotDelete(path: Path)
    | CannotUpdate(path: Path)
    | HunkFailed(path: Path, error: PatchEngine.HunkError)
    | DestinationExists(path: Path)

  // resolve is the workspace's WritablePath; the hidden files cannot be read (too large, say).
  function PlanOne(d: Disk, hidden: set<Path>, resolve: string -> Option<Path>, fp: UnifiedDiff.FilePatch,
                   seen: set<Path>)
    : Result<PlannedChange, PlanError>
  {
    match resolve(fp.path)
    case None => Err(NotWritable(fp.path))
    case Some(path) =>
      var existed := path in d && path !in hidden;
      var before := if existed then d[path].data else "";
      if path in seen then Err(Twice(path))
      else
        match fp.op
        case Add => if existed then Err(AlreadyExists(path))
                    else Ok(PlannedChange(path, path, before, fp.content, false, false))
        case Delete => if !existed then Err(CannotDelete(path))
                       else Ok(PlannedChange(path, path, before, "", true, true))
        case Update =>
          if !existed then Err(CannotUpdate(path))
          else
            match PatchEngine.ApplyText(before, fp.hunks)
            case Err(e) => Err(HunkFailed(path, e))
            case Ok(after) =>
              if fp.moveTo == "" then Ok(PlannedChange(path, path, before, after, true, false))
              else
                match resolve(fp.moveTo)
                case None => Err(NotWritable(fp.moveTo))
                case Some(target) =>
                  if target in d then Err(DestinationExists(target))
                  else Ok(PlannedChange(path, target, before, after, true, false))
  }

  // The plan of the patches from k on, after `seen`.
  function PlanFrom(d: Disk, hidden: set<Path>, resolve: string -> Option<Path>, patches: seq<UnifiedDiff.FilePatch>,
                    k: nat, seen: set<Path>)
    : Result<seq<PlannedChange>, PlanError>
    decreases |patches| - k
  {
    if k >= |patches| then Ok([])
    else
      match PlanOne(d, hidden, resolve, patches[k], seen)
      case Err(e) => Err(e)
      case Ok(c) =>
        match PlanFrom(d, hidden, resolve, patches, k + 1, seen + {c.path})
        case Err(e) => Err(e)
        case Ok(rest) => Ok([c] + rest)
  }

  method PlanPatch(d: Disk, hidden: set<Path>, resolve: string -> Option<Path>, patches: seq<UnifiedDiff.FilePatch>)
    returns (r: Result<seq<PlannedChange>, PlanError>)
    ensures r == PlanFrom(d, hidden, resolve, patches, 0, {})
  {
    hide PlanOne;
    var seen: set<Path> := {};
    var plan: seq<PlannedChange> := [];
    var k := 0;
    AheadNothing(PlanFrom(d, hidden, resolve, patches, 0, {}));
    while k < |patches|
      invariant 0 <= k <= |patches|
      invariant PlanFrom(d, hidden, resolve, patches, 0, {}) ==
                  Ahead(plan, PlanFrom(d, hidden, resolve, patches, k, seen))
    {
      var c := PlanOne(d, hidden, resolve, patches[k], seen);
      if c.Err? {
        return Err(c.error);
      }
      AheadStep(plan, c.value, PlanFrom(d, hidden, resolve, patches, k + 1, seen + {c.value.path}));
      plan := plan + [c.value];
      seen := seen + {c.value.path};
      k := k + 1;
    }
    assert plan + [] == plan;
    return Ok(plan);
  }

  ghost function Ahead(plan: seq<PlannedChange>, r: Result<seq<PlannedChange>,
                       PlanError>): Result<seq<PlannedChange>, PlanError> {
    if r.Ok? then Ok(plan + r.value) else r
  }

  lemma AheadNothing(r: Result<seq<PlannedChange>, PlanError>)
    ensures Ahead([], r) == r
  {
    if r.Ok? {
      assert [] + r.value == r.value;
    }
  }

  lemma AheadStep(plan: seq<PlannedChange>, c: PlannedChange, r: Result<seq<PlannedChange>, PlanError>)
    ensures Ahead(plan, Ahead([c], r)) == Ahead(plan + [c], r)
  {
    if r.Ok? {
      assert plan + ([c] + r.value) == plan + [c] + r.value;
    }
  }

  // ---- What is planned, and what is refused ----

  predicate Readable(d: Disk, hidden: set<Path>, p: Path) {
    p in d && p !in hidden
  }

  // What one patch asks for.
  predicate Asks(d: Disk, hidden: set<Path>, resolve: string -> Option<Path>, fp: UnifiedDiff.FilePatch,
                 c: PlannedChange) {
    && resolve(fp.path) == Some(c.path)
    && (c.existed <==> Readable(d, hidden, c.path)) && (c.existed ==> c.before == d[c.path].data)
    && match fp.op
       case Add => !c.existed && !c.deleteIt && c.target == c.path && c.after == fp.content
       case Delete => c.existed && c.deleteIt && c.target == c.path
       case Update =>
         && c.existed && !c.deleteIt && PatchEngine.ApplyText(c.before, fp.hunks) == Ok(c.after)
         && if fp.moveTo == "" then c.target == c.path else resolve(fp.moveTo) == Some(c.target) && c.target !in d
  }

  // A patch before k is for that file.
  ghost predicate Named(resolve: string -> Option<Path>, patches: seq<UnifiedDiff.FilePatch>, k: nat, p: Path)
    requires k <= |patches|
  {
    exists i | 0 <= i < k :: resolve(patches[i].path) == Some(p)
  }

  // The update of patch fp, of the readable file p, can be worked out.
  predicate Updatable(d: Disk, p: Path, fp: UnifiedDiff.FilePatch) {
    p in d && PatchEngine.ApplyText(d[p].data, fp.hunks).Ok?
  }

  // Why patch k is refused.
  ghost predicate Cause(d: Disk, hidden: set<Path>, resolve: string -> Option<Path>,
                        patches: seq<UnifiedDiff.FilePatch>, k: nat, e: PlanError)
    requires k < |patches|
  {
    var fp := patches[k];
    var path := resolve(fp.path);
    if path.None? then e == NotWritable(fp.path)
    else
      var p := path.value;
      var there := Readable(d, hidden, p);
      if Named(resolve, patches, k, p) then e == Twice(p)
      else
        || (fp.op.Add? && there && e == AlreadyExists(p))
        || (fp.op.Delete? && !there && e == CannotDelete(p))
        || (fp.op.Update? && !there && e == CannotUpdate(p))
        || (fp.op.Update? && there && !Updatable(d, p, fp) && e.HunkFailed? && e.path == p
            && PatchEngine.ApplyText(d[p].data, fp.hunks) == Err(e.error))
        || (fp.op.Update? && there && Updatable(d, p, fp) && fp.moveTo != ""
            && match resolve(fp.moveTo)
               case None => e == NotWritable(fp.moveTo)
               case Some(target) => target in d && e == DestinationExists(target))
  }

  // The first of the patches from k on that is refused.
  ghost predicate FirstCause(d: Disk, hidden: set<Path>, resolve: string -> Option<Path>,
                             patches: seq<UnifiedDiff.FilePatch>, k: nat, at: nat, e: PlanError) {
    && k <= at < |patches| && Cause(d, hidden, resolve, patches, at, e)
    && forall i, x | k <= i < at :: !Cause(d, hidden, resolve, patches, i, x)
  }

  // An accepted plan of the patches from k on: an entry for each, as it asks, and no file named twice.
  ghost predicate Accepted(d: Disk, hidden: set<Path>, resolve: string -> Option<Path>,
                           patches: seq<UnifiedDiff.FilePatch>, k: nat, seen: set<Path>, plan: seq<PlannedChange>) {
    && k + |plan| == |patches|
    && (forall i | 0 <= i < |plan| :: Asks(d, hidden, resolve, patches[k + i], plan[i]) && plan[i].path !in seen)
    && (forall i, j | 0 <= i < j < |plan| :: plan[i].path != plan[j].path)
  }

  lemma AskedFits(d: Disk, hidden: set<Path>, resolve: string -> Option<Path>, fp: UnifiedDiff.FilePatch,
                  c: PlannedChange)
    requires Asks(d, hidden, resolve, fp, c)
    ensures EntryFits(d, c)
  {
  }

  lemma AcceptedMore(d: Disk, hidden: set<Path>, resolve: string -> Option<Path>, patches: seq<UnifiedDiff.FilePatch>,
                     k: nat, seen: set<Path>, c: PlannedChange, rest: seq<PlannedChange>)
    requires k < |patches| && Asks(d, hidden, resolve, patches[k], c) && c.path !in seen
    requires Accepted(d, hidden, resolve, patches, k + 1, seen + {c.path}, rest)
    ensures Accepted(d, hidden, resolve, patches, k, seen, [c] + rest)
  {
    hide Asks;
    var plan := [c] + rest;
    assert forall i | 1 <= i < |plan| :: plan[i] == rest[i - 1];
    assert forall i | 0 <= i < |rest| :: rest[i].path !in seen && rest[i].path != c.path;
  }

  lemma PlanFromStep(d: Disk, hidden: set<Path>, resolve: string -> Option<Path>, patches: seq<UnifiedDiff.FilePatch>,
                     k: nat, seen: set<Path>)
    requires k < |patches|
    ensures PlanFrom(d, hidden, resolve, patches, k, seen) ==
            match PlanOne(d, hidden, resolve, patches[k], seen)
            case Err(e) => Err(e)
            case Ok(c) => Ahead([c], PlanFrom(d, hidden, resolve, patches, k + 1, seen + {c.path}))
  {
    hide PlanOne;
  }

  lemma PlanOneMeaning(d: Disk, hidden: set<Path>, resolve: string -> Option<Path>,
                       patches: seq<UnifiedDiff.FilePatch>, k: nat, seen: set<Path>)
    requires k < |patches| && forall p :: p in seen <==> Named(resolve, patches, k, p)
    ensures match PlanOne(d, hidden, resolve, patches[k], seen)
      case Ok(c) => && Asks(d, hidden, resolve, patches[k], c) && c.path !in seen
                    && forall e :: !Cause(d, hidden, resolve, patches, k, e)
      case Err(e) => Cause(d, hidden, resolve, patches, k, e)
  {
    hide PatchEngine.ApplyText, Named;
  }

  lemma NamedMore(resolve: string -> Option<Path>, patches: seq<UnifiedDiff.FilePatch>, k: nat, seen: set<Path>,
                  c: Path)
    requires k < |patches| && resolve(patches[k].path) == Some(c)
    requires forall p :: p in seen <==> Named(resolve, patches, k, p)
    ensures forall p :: p in seen + {c} <==> Named(resolve, patches, k + 1, p)
  {
    forall p ensures p in seen + {c} <==> Named(resolve, patches, k + 1, p) {
      if Named(resolve, patches, k + 1, p) {
        var i :| 0 <= i < k + 1 && resolve(patches[i].path) == Some(p);
        assert i < k ==> Named(resolve, patches, k, p);
      }
    }
  }

  // What planning accepts, and what it refuses and why: the first patch with a cause, and only that.
  lemma {:induction false} PlanMeaning(d: Disk, hidden: set<Path>, resolve: string -> Option<Path>,
                                       patches: seq<UnifiedDiff.FilePatch>, k: nat, seen: set<Path>) returns (at: nat)
    requires k <= |patches| && forall p :: p in seen <==> Named(resolve, patches, k, p)
    ensures match PlanFrom(d, hidden, resolve, patches, k, seen)
      case Ok(plan) => && Accepted(d, hidden, resolve, patches, k, seen, plan)
                       && forall i, e | k <= i < |patches| :: !Cause(d, hidden, resolve, patches, i, e)
      case Err(e) => FirstCause(d, hidden, resolve, patches, k, at, e)
    decreases |patches| - k
  {
    at := k;
    if k < |patches| {
      hide PlanFrom, PlanOne, Accepted, Asks, Cause, Named;
      PlanFromStep(d, hidden, resolve, patches, k, seen);
      PlanOneMeaning(d, hidden, resolve, patches, k, seen);
      var c := PlanOne(d, hidden, resolve, patches[k], seen);
      if c.Ok? {
        assert resolve(patches[k].path) == Some(c.value.path) by { AskedPath(d, hidden, resolve, patches[k], c.value); }
        NamedMore(resolve, patches, k, seen, c.value.path);
        at := PlanMeaning(d, hidden, resolve, patches, k + 1, seen + {c.value.path});
        var rest := PlanFrom(d, hidden, resolve, patches, k + 1, seen + {c.value.path});
        if rest.Ok? {
          AcceptedMore(d, hidden, resolve, patches, k, seen, c.value, rest.value);
        }
      }
    }
  }

  lemma AskedPath(d: Disk, hidden: set<Path>, resolve: string -> Option<Path>, fp: UnifiedDiff.FilePatch,
                  c: PlannedChange)
    requires Asks(d, hidden, resolve, fp, c)
    ensures resolve(fp.path) == Some(c.path)
  {
  }

  lemma AcceptedFits(d: Disk, hidden: set<Path>, resolve: string -> Option<Path>, patches: seq<UnifiedDiff.FilePatch>,
                     plan: seq<PlannedChange>)
    requires Accepted(d, hidden, resolve, patches, 0, {}, plan)
    ensures PlanFits(d, plan)
  {
    hide Asks, EntryFits;
    forall i | 0 <= i < |plan| ensures EntryFits(d, plan[i]) {
      AskedFits(d, hidden, resolve, patches[0 + i], plan[i]);
    }
  }

  // The check after approval: the file still holds what was read, or still does not exist.
  predicate Unchanged(d: Disk, hidden: set<Path>, c: PlannedChange) {
    if c.path !in d then !c.existed else c.path !in hidden && c.existed && d[c.path].data == c.before
  }

  // What was planned for a file still stands exactly when the file reads now as it did then, or could not be read then
  // and is not there now.
  lemma StandsExactlyIfSame(before: Disk, now: Disk, hidden: set<Path>, hiddenNow: set<Path>,
                            resolve: string -> Option<Path>, fp: UnifiedDiff.FilePatch, c: PlannedChange)
    requires Asks(before, hidden, resolve, fp, c)
    ensures Unchanged(now, hiddenNow, c) <==>
            if c.path in now then
              && c.path !in hiddenNow && c.path in before && c.path !in hidden
              && now[c.path].data == before[c.path].data
            else c.path !in before || c.path in hidden
  {
  }

  // ---- What an applied patch leaves, told by the patches ----

  // Patch fp was carried out on the disk d, with created files of mode m, and left r.
  ghost predicate CarriedOut(d: Disk, r: Disk, resolve: string -> Option<Path>, fp: UnifiedDiff.FilePatch, m: nat) {
    && resolve(fp.path).Some?
    && var p := resolve(fp.path).value;
       match fp.op
       case Add => p !in d && At(r, p) == Some(File(fp.content, m))
       case Delete => p in d && p !in r
       case Update =>
         && p in d && PatchEngine.ApplyText(d[p].data, fp.hunks).Ok?
         && var text := PatchEngine.ApplyText(d[p].data, fp.hunks).value;
            if fp.moveTo == "" then At(r, p) == Some(File(text, d[p].mode))
            else p !in r && resolve(fp.moveTo).Some? && At(r, resolve(fp.moveTo).value) == Some(File(text, m))
  }

  // Some patch is for the file, or moves one there.
  ghost predicate Mentions(resolve: string -> Option<Path>, patches: seq<UnifiedDiff.FilePatch>, p: Path) {
    exists i | 0 <= i < |patches| ::
      resolve(patches[i].path) == Some(p)
      || (patches[i].op.Update? && patches[i].moveTo != "" && resolve(patches[i].moveTo) == Some(p))
  }

  lemma {:induction false} WriterIs(plan: seq<PlannedChange>, n: nat, k: nat)
    requires k < n <= |plan| && !plan[k].deleteIt && DistinctResults(plan, |plan|)
    ensures Writer(plan, n, plan[k].target) == Some(k)
  {
    if k < n - 1 {
      WriterIs(plan, n - 1, k);
    }
  }

  lemma {:induction false} NoWriter(plan: seq<PlannedChange>, n: nat, p: Path)
    requires n <= |plan| && forall i | 0 <= i < |plan| && !plan[i].deleteIt :: plan[i].target != p
    ensures Writer(plan, n, p) == None
  {
    if n > 0 {
      NoWriter(plan, n - 1, p);
    }
  }

  lemma {:induction false} VacatedMeans(plan: seq<PlannedChange>, n: nat, p: Path)
    requires n <= |plan|
    ensures p in Vacated(plan, n) <==>
            exists i | 0 <= i < n :: plan[i].path == p && (plan[i].deleteIt || plan[i].target != plan[i].path)
  {
    if n > 0 {
      VacatedMeans(plan, n - 1, p);
    }
  }

  // Nothing moves to, and nothing is added at, a file that a patch was for and that could be read.
  lemma NothingLandsOn(d: Disk, hidden: set<Path>, resolve: string -> Option<Path>, patches: seq<UnifiedDiff.FilePatch>,
                       plan: seq<PlannedChange>, k: nat)
    requires Accepted(d, hidden, resolve, patches, 0, {}, plan) && k < |plan| && plan[k].existed
    ensures forall i | 0 <= i < |plan| && !plan[i].deleteIt && i != k :: plan[i].target != plan[k].path
  {
    hide PatchEngine.ApplyText;
    forall i | 0 <= i < |plan| && !plan[i].deleteIt && i != k ensures plan[i].target != plan[k].path {
      assert Asks(d, hidden, resolve, patches[0 + i], plan[i]) && Asks(d, hidden, resolve, patches[0 + k], plan[k]);
      assert plan[i].path != plan[k].path;
    }
  }

  lemma EntryCarriedOut(before: Disk, now: Disk, hidden: set<Path>, hiddenNow: set<Path>,
                        resolve: string -> Option<Path>,
                        patches: seq<UnifiedDiff.FilePatch>, plan: seq<PlannedChange>, r: Disk, m: nat, k: nat)
    requires Accepted(before, hidden, resolve, patches, 0, {}, plan) && k < |plan| && Unchanged(now, hiddenNow, plan[k])
    requires AsPlanned(now, r, plan, |plan|, m) && DistinctResults(plan, |plan|)
    ensures CarriedOut(now, r, resolve, patches[k], m)
  {
    hide PatchEngine.ApplyText, Writer, Vacated, DistinctResults, Accepted;
    var c := plan[k];
    assert Asks(before, hidden, resolve, patches[0 + k],
                c) by { AcceptedAsks(before, hidden, resolve, patches, plan, k); }
    assert At(r, c.path) == PlannedAt(now, plan, |plan|, m, c.path);
    assert At(r, c.target) == PlannedAt(now, plan, |plan|, m, c.target);
    VacatedMeans(plan, |plan|, c.path);
    if c.existed {
      NothingLandsOn(before, hidden, resolve, patches, plan, k);
    }
    if c.deleteIt || c.target != c.path {
      NoWriter(plan, |plan|, c.path);
    }
    if !c.deleteIt {
      WriterIs(plan, |plan|, k);
    }
  }

  lemma AcceptedAsks(d: Disk, hidden: set<Path>, resolve: string -> Option<Path>, patches: seq<UnifiedDiff.FilePatch>,
                     plan: seq<PlannedChange>, k: nat)
    requires Accepted(d, hidden, resolve, patches, 0, {}, plan) && k < |plan|
    ensures k < |patches| && Asks(d, hidden, resolve, patches[k], plan[k])
  {
    hide Asks;
    assert Asks(d, hidden, resolve, patches[0 + k], plan[k]);
  }

  lemma OthersUntouched(d: Disk, hidden: set<Path>, resolve: string -> Option<Path>,
                        patches: seq<UnifiedDiff.FilePatch>,
                        plan: seq<PlannedChange>, p: Path)
    requires Accepted(d, hidden, resolve, patches, 0, {}, plan) && !Mentions(resolve, patches, p)
    ensures !InFootprint(plan, p)
  {
    hide PatchEngine.ApplyText;
    forall k | 0 <= k < |plan| ensures plan[k].path != p && plan[k].target != p {
      assert Asks(d, hidden, resolve, patches[0 + k], plan[k]);
      assert !(resolve(patches[k].path) == Some(p)
               || (patches[k].op.Update? && patches[k].moveTo != "" && resolve(patches[k].moveTo) == Some(p)));
    }
  }

  // A patch planned on one disk and checked against the disk as it is by then is applied to that disk all or nothing,
  // whatever changed in between: every patch carried out, or every path as a rollback leaves it; and no file is
  // touched that no patch mentions.
  lemma PlannedThenApplied(before: Disk, now: Disk, hidden: set<Path>, hiddenNow: set<Path>,
                           resolve: string -> Option<Path>,
                           patches: seq<UnifiedDiff.FilePatch>, envs: seq<Env>, m: nat)
    ensures var plan := PlanFrom(before, hidden, resolve, patches, 0, {});
            plan.Ok? && (forall i | 0 <= i < |plan.value| :: Unchanged(now, hiddenNow, plan.value[i])) ==>
              var (r, outcome) := Execute(now, plan.value, envs, m);
              && (outcome == Applied ==>
                    && AsPlanned(now, r, plan.value, |patches|, m) && DistinctResults(plan.value, |patches|)
                    && forall k | 0 <= k < |patches| :: CarriedOut(now, r, resolve, patches[k], m))
              && (outcome == RolledBack(true) ==>
                    |plan.value| == |patches| && forall p :: At(r, p) == RolledBackAt(now, plan.value, envs, m, p))
              && (forall p | !Mentions(resolve, patches, p) || !InFootprint(plan.value, p) :: At(r, p) == At(now, p))
  {
    hide AsPlanned, DistinctResults, RolledBackAt, Execute, PlanFrom, Vacated, Asks, Mentions, CarriedOut, InFootprint;
    var _ := PlanMeaning(before, hidden, resolve, patches, 0, {});
    var plan := PlanFrom(before, hidden, resolve, patches, 0, {});
    if plan.Ok? && forall i | 0 <= i < |plan.value| :: Unchanged(now, hiddenNow, plan.value[i]) {
      AcceptedFits(before, hidden, resolve, patches, plan.value);
      forall i | 0 <= i < |plan.value| ensures EntryFits(now, plan.value[i]) {
        assert EntryFits(before, plan.value[i]) && Unchanged(now, hiddenNow, plan.value[i]);
      }
      AllOrNothing(now, plan.value, envs, m);
      var (r, outcome) := Execute(now, plan.value, envs, m);
      if outcome == Applied {
        forall k | 0 <= k < |patches| ensures CarriedOut(now, r, resolve, patches[k], m) {
          EntryCarriedOut(before, now, hidden, hiddenNow, resolve, patches, plan.value, r, m, k);
        }
      }
      forall p | !Mentions(resolve, patches, p) ensures !InFootprint(plan.value, p) {
        OthersUntouched(before, hidden, resolve, patches, plan.value, p);
      }
    }
  }
}
