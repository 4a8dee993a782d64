/** Undoing turns file by file is the same as keeping whole copies of the disk. */
module CheckpointHistory {
  import opened Results
  import opened CheckpointStore
  import opened CheckpointTurns

  // A copy of the whole disk, taken when a turn was about to change its first file; and, of each file the turn
  // touched, what the tools have since left in it and what could be kept of it when it was first touched.
  datatype Saved = Saved(start: Disk, left: map<Path, Option<string>>, found: map<Path, FileState>)

  // ---- The history a run would record with whole-disk copies ----

  function OpenTurn(h: seq<Saved>, d: Disk): (r: seq<Saved>)
    ensures r != []
  {
    if h == [] then [Saved(d, map[], map[])] else h
  }

  function BeginTurn(h: seq<Saved>, d: Disk): seq<Saved> {
    if h != [] && Last(h).left == map[] then h else h + [Saved(d, map[], map[])]
  }

  function Touch(h: seq<Saved>, d: Disk, p: Path, st: FileState, content: Option<string>): (r: seq<Saved>)
    ensures r != []
  {
    var o := OpenTurn(h, d);
    var t := Last(o);
    Front(o) + [Saved(if t.left == map[] then d else t.start, t.left[p := content],
                      if p in t.left then t.found else t.found[p := st])]
  }

  function StateOf(d: Disk, p: Path): FileState {
    if p in d then Present(d[p].data, d[p].mode) else Absent
  }

  // The file at p, if there is one, can be kept whole.
  predicate Keepable(w: World, p: Path, readable: bool) {
    p in w.disk ==> readable && |w.disk[p].data| <= w.limit
  }

  function Found(w: World, p: Path, readable: bool): FileState {
    if Keepable(w, p, readable) then StateOf(w.disk, p) else TooLarge
  }

  // A snapshot is the file as it is, or that there is none, except of a file that cannot be kept.
  lemma SnapshotIsFound(w: World, p: Path, readable: bool)
    ensures Snapshot(w, p, readable) == Found(w, p, readable)
    ensures Snapshot(w, p, readable).TooLarge? <==> p in w.disk && (!readable || |w.disk[p].data| > w.limit)
  {
  }

  function LastTouched(h: seq<Saved>): (r: int)
    ensures -1 <= r < |h|
    ensures r >= 0 ==> h[r].left != map[]
    ensures forall i | r < i < |h| :: h[i].left == map[]
  {
    if h == [] then -1 else if Last(h).left != map[] then |h| - 1 else LastTouched(Front(h))
  }

  function PopTurn(h: seq<Saved>): seq<Saved> {
    var i := LastTouched(h);
    if i < 0 then h else Without(h, i)
  }

  // Only the newest turns are kept once the store has been trimmed to its budget.
  function Keep(h: seq<Saved>, n: nat): seq<Saved> {
    if n <= |h| then Suffix(h, n) else h
  }

  function Succeeded(w: World, op: Op): bool {
    match op
    case DoWrite(p, data, e) => WriteFileAtomic(w, p, data, e).1
    case DoCreate(p, data, e) => CreateExclusive(w, p, data, e).1
    case DoRemove(p, e) => RemoveFile(w, p, e).1
    case DoUndo(force, failing) => Undo(w, force, failing).1.None?
    case _ => true
  }

  function Record(h: seq<Saved>, w: World, op: Op): seq<Saved> {
    var w' := Step(w, op);
    var r :=
      match op
      case DoBegin(_) => BeginTurn(h, w.disk)
      case DoWrite(p, _, e) =>
        if Succeeded(w, op) then Touch(h, w.disk, p, Found(w, p, e.readable), Content(w'.disk, p))
        else OpenTurn(h, w.disk)
      case DoCreate(p, _, e) =>
        if Succeeded(w, op) then Touch(h, w.disk, p, Found(w, p, e.readable), Content(w'.disk, p))
        else OpenTurn(h, w.disk)
      case DoRemove(p, e) =>
        if p !in w.disk then h
        else if Succeeded(w, op) then Touch(h, w.disk, p, Found(w, p, e.readable), Content(w'.disk, p))
        else OpenTurn(h, w.disk)
      case DoUndo(_, _) => if Succeeded(w, op) then PopTurn(h) else h
      case Outside(_, _) => h;
    Keep(r, |w'.store.turns|)
  }

  function History(w: World, ops: seq<Op>): seq<Saved>
    decreases |ops|
  {
    if ops == [] then [] else Record(History(w, Front(ops)), Run(w, Front(ops)), Last(ops))
  }

  // ---- The ledger: which files each turn touched, what they were, and what was left in them ----

  ghost predicate Entered(changes: seq<Change>, t: Saved) {
    && (forall k | 0 <= k < |changes| ::
          changes[k].path in t.left && t.left[changes[k].path] == changes[k].after
          && changes[k].path in t.found && t.found[changes[k].path] == changes[k].before)
    && (forall p | p in t.left :: Find(changes, p).Some?)
  }

  ghost predicate Ledger(turns: seq<Turn>, h: seq<Saved>) {
    && |turns| == |h|
    && WellFormedTurns(turns)
    && forall i | 0 <= i < |turns| :: Entered(turns[i].changes, h[i])
  }

  lemma EnteredEmpty(changes: seq<Change>, t: Saved)
    requires Entered(changes, t)
    ensures changes == [] <==> t.left == map[]
  {
    if changes != [] {
      assert changes[0].path in t.left;
    }
    if t.left != map[] {
      var p :| p in t.left;
      assert Find(changes, p).Some?;
    }
  }

  lemma LedgerSuffix(turns: seq<Turn>, h: seq<Saved>, n: nat)
    requires n <= |turns| && Ledger(turns, h)
    ensures Ledger(Suffix(turns, n), Suffix(h, n))
  {
    hide Entered;
    SuffixWellFormed(turns, n);
    assert forall i | 0 <= i < n ::
             Suffix(turns, n)[i] == turns[|turns| - n + i] && Suffix(h, n)[i] == h[|turns| - n + i];
  }

  lemma EnteredMark(changes: seq<Change>, t: Saved, start: Disk, id: nat, p: Path, st: FileState,
                    content: Option<string>)
    requires Entered(changes, t) && DistinctPaths(changes)
    ensures Entered(Mark(changes, id, p, st, content),
                    Saved(start, t.left[p := content], if p in t.left then t.found else t.found[p := st]))
  {
    hide Find, Mark;
    var m := Mark(changes, id, p, st, content);
    var t' := Saved(start, t.left[p := content], if p in t.left then t.found else t.found[p := st]);
    MarkDistinct(changes, id, p, st, content);
    MarkCounts(changes, id, p, st, content);
    forall k | 0 <= k < |m|
      ensures m[k].path in t'.left && t'.left[m[k].path] == m[k].after
      ensures m[k].path in t'.found && t'.found[m[k].path] == m[k].before
    {
      MarkAt(changes, id, p, st, content, k);
      if k < |changes| {
        assert changes[k].path in t.left && changes[k].path in t.found;
      }
    }
    forall q | q in t'.left ensures Find(m, q).Some? {
      MarkCovers(changes, id, p, st, content, q);
    }
  }

  lemma MarkCounts(changes: seq<Change>, id: nat, p: Path, st: FileState, content: Option<string>)
    ensures var m := Mark(changes, id, p, st, content);
      && |changes| <= |m| <= |changes| + 1 && (forall k | 0 <= k < |changes| :: m[k].path == changes[k].path)
      && (|m| > |changes| ==> m[|changes|].path == p)
  {
    hide Find;
  }

  lemma MarkAt(changes: seq<Change>, id: nat, p: Path, st: FileState, content: Option<string>, k: nat)
    requires DistinctPaths(changes) && k < |Mark(changes, id, p, st, content)|
    ensures var m := Mark(changes, id, p, st, content)[k];
            if m.path == p
            then m.after == content &&
                 if k < |changes| then m.before == changes[k].before else m.before == st && Find(changes, p).None?
            else k < |changes| && m == changes[k]
  {
    hide Find;
    var f := Find(changes, p);
    if k < |changes| && f.Some? && k != f.value {
      assert changes[k].path != changes[f.value].path;
    }
  }

  lemma MarkCovers(changes: seq<Change>, id: nat, p: Path, st: FileState, content: Option<string>, q: Path)
    ensures Find(Mark(changes, id, p, st, content), q).Some? <==> q == p || Find(changes, q).Some?
  {
    hide Find;
    var m := Mark(changes, id, p, st, content);
    var f := Find(changes, p);
    if f.Some? {
      assert m[f.value].path == p;
      assert forall k | 0 <= k < |changes| :: m[k].path == changes[k].path;
    } else {
      assert m[|changes|].path == p;
      assert forall k | 0 <= k < |changes| :: m[k] == changes[k];
    }
    if Find(changes, q).Some? { assert m[Find(changes, q).value].path == q; }
    if Find(m, q).Some? { assert m[Find(m, q).value].path == q; }
  }

  lemma OpenLedger(s: Store, h: seq<Saved>, d: Disk)
    requires Ledger(s.turns, h)
    ensures Ledger(EnsureTurn(s).turns, OpenTurn(h, d))
  {
    hide Entered;
    EnsureTurnShape(s);
    if s.turns == [] {
      EnteredNone();
    }
  }

  lemma EnteredNone()
    ensures forall d :: Entered([], Saved(d, map[], map[]))
  {
  }

  lemma TouchLedger(turns: seq<Turn>, h: seq<Saved>, d: Disk, id: nat, p: Path, st: FileState, content: Option<string>)
    requires turns != [] && Ledger(turns, h)
    ensures var t := Last(turns);
            Ledger(Front(turns) + [t.(changes := Mark(t.changes, id, p, st, content))], Touch(h, d, p, st, content))
  {
    hide Entered, Mark;
    var t := Last(turns);
    var turns' := Front(turns) + [t.(changes := Mark(t.changes, id, p, st, content))];
    var h' := Touch(h, d, p, st, content);
    MarkDistinct(t.changes, id, p, st, content);
    EnteredMark(t.changes, Last(h), Last(h').start, id, p, st, content);
    assert forall i | 0 <= i < |turns| - 1 :: turns'[i] == turns[i] && h'[i] == h[i];
  }

  lemma SuccessLedger(s: Store, h: seq<Saved>, d: Disk, p: Path, st: FileState, content: Option<string>)
    requires Ledger(s.turns, h)
    ensures var r := After(Before(s, p, st).0, p, content);
            Ledger(r.turns, Keep(Touch(h, d, p, st, content), |r.turns|))
  {
    hide Ledger, Mark, Before, After;
    var c := EnsureTurn(s);
    var t := Last(c.turns);
    SuccessTurns(s, p, st, content);
    OpenLedger(s, h, d);
    TouchLedger(c.turns, OpenTurn(h, d), d, c.nextChange, p, st, content);
    assert Touch(OpenTurn(h, d), d, p, st, content) == Touch(h, d, p, st, content);
    LedgerLengths(c.turns, OpenTurn(h, d));
    LedgerSuffix(Front(c.turns) + [t.(changes := Mark(t.changes, c.nextChange, p, st, content))],
                 Touch(h, d, p, st, content),
                 |After(Before(s, p, st).0, p, content).turns|);
  }

  lemma LedgerLengths(turns: seq<Turn>, h: seq<Saved>)
    requires Ledger(turns, h)
    ensures |turns| == |h|
  {
  }

  lemma FailureLedger(s: Store, h: seq<Saved>, d: Disk, p: Path, st: FileState)
    requires Ledger(s.turns, h)
    ensures var (b, added) := Before(s, p, st);
            var r := if added then Discard(b, p) else b;
            Ledger(r.turns, Keep(OpenTurn(h, d), |r.turns|))
  {
    hide Ledger, Before, Discard;
    FailureTurns(s, p, st);
    OpenLedger(s, h, d);
    LedgerLengths(EnsureTurn(s).turns, OpenTurn(h, d));
    var (b, added) := Before(s, p, st);
    LedgerSuffix(EnsureTurn(s).turns, OpenTurn(h, d), |(if added then Discard(b, p) else b).turns|);
  }

  lemma BeginLedger(s: Store, h: seq<Saved>, d: Disk, title: string)
    requires Ledger(s.turns, h)
    ensures Ledger(Begin(s, title).turns, BeginTurn(h, d))
  {
    hide Entered;
    BeginShape(s, title);
    EnteredNone();
    if s.turns != [] {
      EnteredEmpty(Last(s.turns).changes, Last(h));
    }
    var r, h' := Begin(s, title).turns, BeginTurn(h, d);
    assert forall i | 0 <= i < |s.turns| :: r[i].changes == s.turns[i].changes && h'[i] == h[i];
  }

  // The store and the history agree on which turn is undone.
  lemma UndoIndexAgrees(turns: seq<Turn>, h: seq<Saved>)
    requires Ledger(turns, h)
    ensures UndoIndex(turns) == LastTouched(h)
  {
    hide Entered;
    var i, j := UndoIndex(turns), LastTouched(h);
    if i >= 0 { EnteredEmpty(turns[i].changes, h[i]); }
    if j >= 0 { EnteredEmpty(turns[j].changes, h[j]); }
  }

  lemma PopLedger(turns: seq<Turn>, h: seq<Saved>, w: World, force: bool, failing: set<Path>)
    requires turns == w.store.turns && Ledger(turns, h) && UndoRefusal(w, force).None?
    ensures Ledger(Undo(w, force, failing).0.store.turns, PopTurn(h))
  {
    hide Entered, UndoIndex, LastTouched, Release, RestoreChanges, Conflicts, Unrestorable;
    UndoIndexAgrees(turns, h);
    UndoShape(w, force, failing);
    var idx := UndoIndex(turns);
    var turns', h' := Without(turns, idx), Without(h, idx);
    assert forall i | 0 <= i < |turns'| ::
      turns'[i] == turns[if i < idx then i else i + 1] && h'[i] == h[if i < idx then i else i + 1];
  }

  lemma KeepAll(h: seq<Saved>)
    ensures Keep(h, |h|) == h
  {
  }

  lemma LedgerStep(w: World, h: seq<Saved>, op: Op)
    requires Ledger(w.store.turns, h)
    ensures Ledger(Step(w, op).store.turns, Record(h, w, op))
  {
    hide Ledger, Before, After, Discard, Begin, Undo, Snapshot, Keep, Touch, OpenTurn, BeginTurn, PopTurn, UndoRefusal;
    hide Found;
    LedgerLengths(w.store.turns, h);
    KeepAll(h);
    match op
    case DoBegin(title) =>
      BeginLedger(w.store, h, w.disk, title);
      LedgerLengths(Begin(w.store, title).turns, BeginTurn(h, w.disk));
      KeepAll(BeginTurn(h, w.disk));
    case DoWrite(p, data, e) =>
      SnapshotIsFound(w, p, e.readable);
      SuccessLedger(w.store, h, w.disk, p, Snapshot(w, p, e.readable), Content(Step(w, op).disk, p));
      FailureLedger(w.store, h, w.disk, p, Snapshot(w, p, e.readable));
    case DoCreate(p, data, e) =>
      SnapshotIsFound(w, p, e.readable);
      SuccessLedger(w.store, h, w.disk, p, Snapshot(w, p, e.readable), Content(Step(w, op).disk, p));
      FailureLedger(w.store, h, w.disk, p, Snapshot(w, p, e.readable));
    case DoRemove(p, e) =>
      SnapshotIsFound(w, p, e.readable);
      SuccessLedger(w.store, h, w.disk, p, Snapshot(w, p, e.readable), Content(Step(w, op).disk, p));
      FailureLedger(w.store, h, w.disk, p, Snapshot(w, p, e.readable));
    case DoUndo(force, failing) =>
      UndoRefused(w, force, failing);
      if UndoRefusal(w, force).None? {
        PopLedger(w.store.turns, h, w, force, failing);
        LedgerLengths(Undo(w, force, failing).0.store.turns, PopTurn(h));
        KeepAll(PopTurn(h));
      }
    case Outside(_, _) =>
  }

  lemma UndoRefused(w: World, force: bool, failing: set<Path>)
    ensures UndoRefusal(w, force).Some? ==> Undo(w, force, failing) == (w, UndoRefusal(w, force))
    ensures UndoRefusal(w, force).None? ==> Undo(w, force, failing).1.None?
  {
  }

  lemma {:induction false} LedgerHolds(w: World, ops: seq<Op>)
    requires w.store.turns == []
    ensures Ledger(Run(w, ops).store.turns, History(w, ops))
    decreases |ops|
  {
    hide Ledger, Step, Record;
    if ops == [] {
      LedgerNone();
    } else {
      LedgerHolds(w, Front(ops));
      LedgerStep(Run(w, Front(ops)), History(w, Front(ops)), Last(ops));
    }
  }

  lemma LedgerNone()
    ensures Ledger([], [])
  {
  }

  // Some file differs from what the turn left there.
  ghost predicate Drifted(d: Disk, left: map<Path, Option<string>>) {
    exists p :: p in left && Content(d, p) != left[p]
  }

  // After any run whatever - failing operations, failed restores, outside edits, trimming -
  // an unforced undo refuses, changing nothing, exactly when there is no turn to undo, or the
  // turn holds a file it cannot restore, or some file it touched has another content by now.
  lemma UndoRefusesExactlyOnDrift(w: World, ops: seq<Op>, failing: set<Path>)
    requires w.store.turns == []
    ensures var now := Run(w, ops);
            var h := History(w, ops);
            var i := LastTouched(h);
            && Ledger(now.store.turns, h)
            && (Undo(now, false, failing).1.Some? <==>
                i < 0 || Unrestorable(now.store.turns[i].changes) || Drifted(now.disk, h[i].left))
            && (Undo(now, false, failing).1.Some? ==> Undo(now, false, failing).0 == now)
  {
    hide Run, History, UndoIndex, LastTouched, Undo;
    var now := Run(w, ops);
    var h := History(w, ops);
    LedgerHolds(w, ops);
    UndoRefused(now, false, failing);
    UndoIndexAgrees(now.store.turns, h);
    var i := LastTouched(h);
    if i >= 0 {
      ConflictIsDrift(now.disk, now.store.turns[i].changes, h[i]);
    }
  }

  lemma ConflictIsDrift(d: Disk, changes: seq<Change>, t: Saved)
    requires Entered(changes, t)
    ensures !Unrestorable(changes) ==> (Conflicts(d, changes) <==> Drifted(d, t.left))
  {
    if !Unrestorable(changes) {
      if Drifted(d, t.left) {
        var p :| p in t.left && Content(d, p) != t.left[p];
        var k := Find(changes, p).value;
        assert changes[k].path == p;
        assert Conflicts(d, changes);
      }
      if Conflicts(d, changes) {
        var k :| 0 <= k < |changes| && !changes[k].before.TooLarge? && Content(d, changes[k].path) != changes[k].after;
        assert changes[k].path in t.left;
      }
    }
  }

  // ---- What an undo does ----

  // The turn touched a file that could not be kept.
  ghost predicate HoldsTooLarge(t: Saved) {
    exists p | p in t.left && p in t.found :: t.found[p].TooLarge?
  }

  // The turn has p's file to put back.
  predicate CanPutBack(t: Saved, p: Path, failing: set<Path>) {
    p in t.left && p in t.found && !t.found[p].TooLarge? && p !in failing
  }

  ghost predicate SameAt(a: Disk, b: Disk, p: Path) {
    (p in a <==> p in b) && (p in a ==> a[p] == b[p])
  }

  lemma HoldsUnrestorable(changes: seq<Change>, t: Saved)
    requires Entered(changes, t)
    ensures Unrestorable(changes) <==> HoldsTooLarge(t)
  {
    hide Find;
    if HoldsTooLarge(t) {
      var p :| p in t.left && p in t.found && t.found[p].TooLarge?;
      var k := Find(changes, p).value;
      assert changes[k].path == p;
    }
  }

  lemma PutBack(d: Disk, changes: seq<Change>, t: Saved, failing: set<Path>, p: Path)
    requires Entered(changes, t) && DistinctPaths(changes)
    ensures var r := RestoreChanges(d, changes, failing);
      if CanPutBack(t, p, failing) then StateOf(r, p) == t.found[p] else SameAt(r, d, p)
  {
    hide Find, RestoreChanges;
    if p in t.left && p !in failing {
      var k := Find(changes, p).value;
      assert changes[k].path == p;
      RestoreTouched(d, changes, failing, k);
    } else {
      RestoreOther(d, changes, failing, p);
    }
  }

  // After any run whatever, an undo fails for lack of a turn that touched a file; else goes through when it is forced;
  // else fails for a file that could not be kept; else for one edited since. If it goes through, the turn's files that
  // can be put back are as the turn found them, every other file stays as it is, and that turn is gone.
  lemma UndoMeans(w: World, ops: seq<Op>, force: bool, failing: set<Path>)
    requires w.store.turns == []
    ensures var (now, h) := (Run(w, ops), History(w, ops));
      var (i, r) := (LastTouched(h), Undo(now, force, failing));
      && |now.store.turns| == |h|
      && (r.1 == Some(NothingToUndo) <==> i < 0)
      && (r.1 == Some(CannotRestore) <==> i >= 0 && !force && HoldsTooLarge(h[i]))
      && (r.1 == Some(Conflict) <==> i >= 0 && !force && !HoldsTooLarge(h[i]) && Drifted(now.disk, h[i].left))
      && (r.1.Some? ==> r.0 == now)
      && (r.1.None? ==> r.0.store.turns == Without(now.store.turns, i) && forall p ::
            if CanPutBack(h[i], p, failing) then StateOf(r.0.disk, p) == h[i].found[p]
            else SameAt(r.0.disk, now.disk, p))
  {
    hide Run, History, UndoIndex, LastTouched, Conflicts, Unrestorable, HoldsTooLarge, Drifted, Release, RestoreChanges;
    hide Entered, StateOf, SameAt;
    var (now, h) := (Run(w, ops), History(w, ops));
    LedgerHolds(w, ops);
    UndoIndexAgrees(now.store.turns, h);
    var i := LastTouched(h);
    if i >= 0 {
      var changes := now.store.turns[i].changes;
      ConflictIsDrift(now.disk, changes, h[i]);
      HoldsUnrestorable(changes, h[i]);
      forall p ensures var d := RestoreChanges(now.disk, changes, failing);
        if CanPutBack(h[i], p, failing) then StateOf(d, p) == h[i].found[p] else SameAt(d, now.disk, p)
      {
        PutBack(now.disk, changes, h[i], failing, p);
      }
    }
  }
}
