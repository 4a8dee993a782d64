/** The workspace's file operations and the execution of a patch plan, on the shared disk and
    checkpoint store (internal/tools/workspace.go, internal/tools/patch.go). */
module Workspace {
  import opened CheckpointStore
  import opened Checkpoints
  import opened PatchPlan

  class Workspace {
    const fs: FileSystem
    const checkpoints: Checkpoints
    const maxFileSize: nat
    const createMode: nat

    constructor (fs: FileSystem, checkpoints: Checkpoints, maxFileSize: nat, createMode: nat)
      requires checkpoints.Valid() && fs !in checkpoints.Repr
      ensures Valid() && this.fs == fs && this.checkpoints == checkpoints
      ensures View() == World(fs.files, checkpoints.store, maxFileSize, createMode)
    {
      this.fs, this.checkpoints, this.maxFileSize, this.createMode := fs, checkpoints, maxFileSize, createMode;
    }

    ghost predicate Valid()
      reads checkpoints, checkpoints.turns, checkpoints.made
    {
      checkpoints.Valid() && fs !in checkpoints.Repr
    }

    ghost function View(): World
      reads fs, checkpoints
    {
      World(fs.files, checkpoints.store, maxFileSize, createMode)
    }

    // Hands the store what is at p now.
    method TakeSnapshot(p: Path, readable: bool) returns (added: bool)
      requires Valid()
      modifies checkpoints.Repr
      ensures Valid() && fresh(checkpoints.Repr - old(checkpoints.Repr)) && fs.files == old(fs.files)
      ensures (checkpoints.store, added) == Before(old(checkpoints.store), p, Snapshot(old(View()), p, readable))
    {
      hide Before;
      var st := Absent;
      if p in fs.files {
        if |fs.files[p].data| > maxFileSize || !readable {
          st := TooLarge;
        } else {
          st := Present(fs.files[p].data, fs.files[p].mode);
        }
      }
      added := checkpoints.Before(p, st);
    }

    method WriteFileAtomic(p: Path, data: string, e: Env) returns (ok: bool)
      requires Valid()
      modifies fs, checkpoints.Repr
      ensures Valid() && fresh(checkpoints.Repr - old(checkpoints.Repr))
      ensures (View(), ok) == CheckpointStore.WriteFileAtomic(old(View()), p, data, e)
    {
      hide Before, After, Discard, Snapshot;
      var added := TakeSnapshot(p, e.readable);
      if e.outcome != Succeeds {
        if added {
          checkpoints.Discard(p);
        }
        return false;
      }
      var mode := if p in fs.files then fs.files[p].mode else DEFAULT_MODE;
      fs.files := fs.files[p := File(data, mode)];
      checkpoints.After(p, data, true);
      return true;
    }

    method CreateExclusive(p: Path, data: string, e: Env) returns (ok: bool)
      requires Valid()
      modifies fs, checkpoints.Repr
      ensures Valid() && fresh(checkpoints.Repr - old(checkpoints.Repr))
      ensures (View(), ok) == CheckpointStore.CreateExclusive(old(View()), p, data, e)
    {
      hide Before, After, Discard, Snapshot;
      var added := TakeSnapshot(p, e.readable);
      if p !in fs.files && !e.outcome.Fails? {
        fs.files := fs.files[p := File(if e.outcome.Leaves? then e.outcome.left else data, createMode)];
        if e.outcome.Succeeds? {
          checkpoints.After(p, data, true);
          return true;
        }
      }
      if added {
        checkpoints.Discard(p);
      }
      return false;
    }

    method RemoveFile(p: Path, e: Env) returns (ok: bool)
      requires Valid()
      modifies fs, checkpoints.Repr
      ensures Valid() && fresh(checkpoints.Repr - old(checkpoints.Repr))
      ensures (View(), ok) == CheckpointStore.RemoveFile(old(View()), p, e)
    {
      hide Before, After, Discard, Snapshot;
      if p !in fs.files {
        return false;
      }
      var added := TakeSnapshot(p, e.readable);
      if e.outcome != Succeeds {
        if added {
          checkpoints.Discard(p);
        }
        return false;
      }
      fs.files := fs.files - {p};
      checkpoints.After(p, "", false);
      return true;
    }

    method UndoOne(u: Done, e: Env) returns (ok: bool, ghost op: Op)
      requires Valid()
      modifies fs, checkpoints.Repr
      ensures Valid() && fresh(checkpoints.Repr - old(checkpoints.Repr))
      ensures (fs.files, ok) == UndoStep(old(fs.files), u, e)
      ensures View() == Step(old(View()), op)
    {
      hide CheckpointStore.WriteFileAtomic, CheckpointStore.RemoveFile;
      ghost var w := View();
      if u.existed {
        ok := WriteFileAtomic(u.path, u.content, e);
        op := DoWrite(u.path, u.content, e);
        WriteOnDisk(w, u.path, u.content, e);
      } else {
        ok := RemoveFile(u.path, e);
        op := DoRemove(u.path, e);
        RemoveOnDisk(w, u.path, e);
      }
    }

    // Undoes the done steps, last first.
    method RollBack(done: seq<Done>, envs: seq<Env>) returns (clean: bool, ghost trace: seq<Op>)
      requires Valid()
      modifies fs, checkpoints.Repr
      ensures Valid() && fresh(checkpoints.Repr - old(checkpoints.Repr))
      ensures (fs.files, clean) == Rollback(old(fs.files), done, envs)
      ensures View() == Run(old(View()), trace)
    {
      hide UndoStep, Step, Run;
      clean, trace := true, [];
      RunNothing(View());
      var i := |done|;
      var left := envs;
      assert done[..i] == done;
      while i > 0
        invariant 0 <= i <= |done| && Valid() && fresh(checkpoints.Repr - old(checkpoints.Repr))
        invariant Rollback(old(fs.files), done, envs) == Later(clean, Rollback(fs.files, done[..i], left))
        invariant View() == Run(old(View()), trace)
      {
        i := i - 1;
        assert Last(done[..i + 1]) == done[i] && Front(done[..i + 1]) == done[..i];
        ghost var op;
        var ok;
        ok, op := UndoOne(done[i], Next(left));
        RunMore(old(View()), trace, op);
        trace := trace + [op];
        clean := clean && ok;
        left := Rest(left);
      }
    }

    // Applies the plan, or rolls back what was done of it. The trace is the run of file
    // operations it made, so everything proved of runs holds of it.
    method ExecutePlan(plan: seq<PlannedChange>, envs: seq<Env>) returns (outcome: PatchOutcome, ghost trace: seq<Op>)
      requires Valid()
      modifies fs, checkpoints.Repr
      ensures Valid() && fresh(checkpoints.Repr - old(checkpoints.Repr))
      ensures (fs.files, outcome) == Execute(old(fs.files), plan, envs, createMode)
      ensures View() == Run(old(View()), trace)
    {
      hide Rollback, ApplyOne, Run;
      var done: seq<Done> := [];
      var left := envs;
      trace := [];
      RunNothing(View());
      var n := 0;
      while n < |plan|
        invariant 0 <= n <= |plan| && Valid() && fresh(checkpoints.Repr - old(checkpoints.Repr))
        invariant Forward(old(fs.files), plan, n, envs, createMode) == Progress(fs.files, done, true, left)
        invariant View() == Run(old(View()), trace)
      {
        ghost var before := View();
        ghost var part;
        var ok;
        ok, done, left, part := ApplyEntry(plan[n], done, left);
        RunConcat(old(View()), trace, part);
        trace := trace + part;
        if !ok {
          StoppedAt(old(fs.files), plan, n + 1, envs, createMode);
          ghost var back;
          var clean;
          clean, back := RollBack(done, left);
          RunConcat(old(View()), trace, back);
          trace := trace + back;
          return RolledBack(clean), trace;
        }
        n := n + 1;
      }
      return Applied, trace;
    }

    method ApplyEntry(c: PlannedChange, done: seq<Done>, envs: seq<Env>)
      returns (ok: bool, done': seq<Done>, envs': seq<Env>, ghost trace: seq<Op>)
      requires Valid()
      modifies fs, checkpoints.Repr
      ensures Valid() && fresh(checkpoints.Repr - old(checkpoints.Repr))
      ensures ApplyOne(old(fs.files), c, done, envs, createMode) == Progress(fs.files, done', ok, envs')
      ensures View() == Run(old(View()), trace)
    {
      hide CheckpointStore.WriteFileAtomic, CheckpointStore.RemoveFile, CheckpointStore.CreateExclusive;
      ghost var w := View();
      var e := Next(envs);
      done', envs' := done, Rest(envs);
      if c.deleteIt {
        ok := RemoveFile(c.path, e);
        RemoveOnDisk(w, c.path, e);
        trace := [DoRemove(c.path, e)];
        RunOne(w, trace[0]);
        if ok {
          done' := done' + [Done(c.path, c.before, true)];
        }
      } else if c.target != c.path {
        ok := CreateExclusive(c.target, c.after, e);
        CreateOnDisk(w, c.target, c.after, e);
        trace := [DoCreate(c.target, c.after, e)];
        RunOne(w, trace[0]);
        if ok {
          done' := done' + [Done(c.target, "", false)];
          ghost var mid := View();
          var e2 := Next(envs');
          envs' := Rest(envs');
          ok := RemoveFile(c.path, e2);
          RemoveOnDisk(mid, c.path, e2);
          RunMore(w, trace, DoRemove(c.path, e2));
          trace := trace + [DoRemove(c.path, e2)];
          if ok {
            done' := done' + [Done(c.path, c.before, true)];
          }
        }
      } else if !c.existed {
        ok := CreateExclusive(c.path, c.after, e);
        CreateOnDisk(w, c.path, c.after, e);
        trace := [DoCreate(c.path, c.after, e)];
        RunOne(w, trace[0]);
        if ok {
          done' := done' + [Done(c.path, "", false)];
        }
      } else {
        ok := WriteFileAtomic(c.path, c.after, e);
        WriteOnDisk(w, c.path, c.after, e);
        trace := [DoWrite(c.path, c.after, e)];
        RunOne(w, trace[0]);
        if ok {
          done' := done' + [Done(c.path, c.before, true)];
        }
      }
    }
  }

  ghost function Later(clean: bool, r: (Disk, bool)): (Disk, bool) {
    (r.0, clean && r.1)
  }

  // ---- What the operations do to the disk ----

  lemma WriteOnDisk(w: World, p: Path, data: string, e: Env)
    ensures var (w', ok) := WriteFileAtomic(w, p, data, e); (w'.disk, ok) == DiskWrite(w.disk, p, data, e)
  {
    hide Before, After, Discard, Snapshot;
  }

  lemma CreateOnDisk(w: World, p: Path, data: string, e: Env)
    ensures var (w', ok) := CreateExclusive(w, p, data, e);
            (w'.disk, ok) == DiskCreate(w.disk, p, data, e, w.createMode)
  {
    hide Before, After, Discard, Snapshot;
  }

  lemma RemoveOnDisk(w: World, p: Path, e: Env)
    ensures var (w', ok) := RemoveFile(w, p, e); (w'.disk, ok) == DiskRemove(w.disk, p, e)
  {
    hide Before, After, Discard, Snapshot;
  }

  lemma StoppedAt(d: Disk, plan: seq<PlannedChange>, n: nat, envs: seq<Env>, m: nat)
    requires n <= |plan| && !Forward(d, plan, n, envs, m).ok
    ensures Forward(d, plan, |plan|, envs, m) == Forward(d, plan, n, envs, m)
    decreases |plan| - n
  {
    hide ApplyOne;
    if n < |plan| {
      StoppedAt(d, plan, n + 1, envs, m);
    }
  }

  // ---- Runs ----

  lemma RunNothing(w: World)
    ensures Run(w, []) == w
  {
  }

  lemma RunOne(w: World, op: Op)
    ensures Run(w, [op]) == Step(w, op)
  {
    hide Step;
    RunNothing(w);
    assert [] + [op] == [op];
    RunMore(w, [], op);
  }

  lemma {:induction false} RunConcat(w: World, a: seq<Op>, b: seq<Op>)
    ensures Run(w, a + b) == Run(Run(w, a), b)
    decreases |b|
  {
    hide Step;
    if b == [] {
      assert a + b == a;
    } else {
      assert Front(a + b) == a + Front(b);
      RunConcat(w, a, Front(b));
    }
  }
}
