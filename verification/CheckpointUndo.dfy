/** Undo is an inverse over whole runs. */
module CheckpointUndo {
  import opened Results
  import opened CheckpointStore
  import opened CheckpointTurns
  import opened CheckpointHistory

  // The changes lead from the disk `start` to the disk `end`: what they recorded is how the
  // files were and are, and no other file differs.
  ghost predicate Fits(start: Disk, changes: seq<Change>, end: Disk) {
    && (forall k | 0 <= k < |changes| ::
      changes[k].before == StateOf(start, changes[k].path) && changes[k].after == Content(end, changes[k].path))
    && (forall p | Find(changes, p).None? :: SameAt(start, end, p))
  }

  // The disk a turn ended with: the next turn's start, or the present disk.
  function EndOf(h: seq<Saved>, i: nat, d: Disk): Disk {
    if i + 1 < |h| && h[i + 1].left != map[] then h[i + 1].start else d
  }

  ghost predicate Chain(turns: seq<Turn>, h: seq<Saved>, d: Disk) {
    && Ledger(turns, h)
    && forall i | 0 <= i < |turns| && turns[i].changes != [] :: Fits(h[i].start, turns[i].changes, EndOf(h, i, d))
  }

  // No outside edit, no file too large or unreadable for its snapshot, no create that leaves
  // its file behind while failing, no failed restore.
  predicate Tracked(w: World, op: Op) {
    match op
    case DoBegin(_) => true
    case DoWrite(p, _, e) => Keepable(w, p, e.readable)
    case DoCreate(p, _, e) => Keepable(w, p, e.readable) && !e.outcome.Leaves?
    case DoRemove(p, e) => Keepable(w, p, e.readable)
    case DoUndo(_, failing) => failing == {}
    case Outside(_, _) => false
  }

  ghost predicate AllTracked(w: World, ops: seq<Op>)
    decreases |ops|
  {
    ops == [] || (AllTracked(w, Front(ops)) && Tracked(Run(w, Front(ops)), Last(ops)))
  }

  // ---- One turn ----

  lemma FitsNone(d: Disk)
    ensures Fits(d, [], d)
  {
  }

  lemma FitsMark(start: Disk, changes: seq<Change>, end: Disk, end': Disk, id: nat, p: Path)
    requires Fits(start, changes, end) && DistinctPaths(changes)
    requires forall q | q != p :: SameAt(end, end', q)
    ensures Fits(start, Mark(changes, id, p, StateOf(end, p), Content(end', p)), end')
  {
    hide Find, Mark;
    var st, content := StateOf(end, p), Content(end', p);
    var m := Mark(changes, id, p, st, content);
    forall k | 0 <= k < |m| ensures m[k].before == StateOf(start, m[k].path) && m[k].after == Content(end', m[k].path) {
      MarkAt(changes, id, p, st, content, k);
      MarkLength(changes, id, p, st, content);
      if m[k].path == p {
        if k == |changes| { assert SameAt(start, end, p); }
        else { assert changes[k].path == p by { MarkPath(changes, id, p, st, content, k); } }
      } else {
        assert SameAt(end, end', m[k].path);
      }
    }
    forall q | Find(m, q).None? ensures SameAt(start, end', q) {
      MarkCovers(changes, id, p, st, content, q);
      assert SameAt(start, end, q) && SameAt(end, end', q);
    }
  }

  lemma MarkLength(changes: seq<Change>, id: nat, p: Path, st: FileState, content: Option<string>)
    ensures |changes| <= |Mark(changes, id, p, st, content)| <= |changes| + 1
  {
  }

  lemma MarkPath(changes: seq<Change>, id: nat, p: Path, st: FileState, content: Option<string>, k: nat)
    requires k < |changes|
    ensures k < |Mark(changes, id, p, st, content)| && Mark(changes, id, p, st, content)[k].path == changes[k].path
  {
    hide Find;
  }

  // Putting every recorded file back gives the disk the turn started from.
  lemma RestoreGivesStart(start: Disk, changes: seq<Change>, end: Disk)
    requires Fits(start, changes, end) && DistinctPaths(changes)
    ensures RestoreChanges(end, changes, {}) == start
  {
    hide RestoreChanges, Find;
    var r := RestoreChanges(end, changes, {});
    forall p ensures SameAt(r, start, p) {
      var f := Find(changes, p);
      if f.Some? {
        RestoreTouched(end, changes, {}, f.value);
      } else {
        assert SameAt(start, end, p);
        RestoreOther(end, changes, {}, p);
      }
    }
    SameEverywhere(r, start);
  }

  lemma SameEverywhere(a: Disk, b: Disk)
    requires forall p :: SameAt(a, b, p)
    ensures a == b
  {
    assert forall p | p in a :: SameAt(a, b, p);
    assert forall p | p in b :: SameAt(a, b, p);
  }

  // ---- Chains ----

  lemma ChainSuffix(turns: seq<Turn>, h: seq<Saved>, d: Disk, n: nat)
    requires n <= |turns| && Chain(turns, h, d)
    ensures n <= |h| && Chain(Suffix(turns, n), Suffix(h, n), d)
  {
    hide Ledger, Fits;
    LedgerLengths(turns, h);
    LedgerSuffix(turns, h, n);
    var k := |turns| - n;
    var turns', h' := Suffix(turns, n), Suffix(h, n);
    forall i | 0 <= i < n && turns'[i].changes != [] ensures Fits(h'[i].start, turns'[i].changes, EndOf(h', i, d)) {
      assert turns'[i] == turns[k + i] && h'[i] == h[k + i];
      assert i + 1 < n ==> h'[i + 1] == h[k + i + 1];
      assert EndOf(h', i, d) == EndOf(h, k + i, d);
    }
  }

  lemma ChainOpen(s: Store, h: seq<Saved>, d: Disk)
    requires Chain(s.turns, h, d)
    ensures Chain(EnsureTurn(s).turns, OpenTurn(h, d), d)
  {
    hide Fits;
    OpenLedger(s, h, d);
    if s.turns != [] {
      LedgerLengths(s.turns, h);
    } else {
      LedgerLengths(EnsureTurn(s).turns, OpenTurn(h, d));
    }
  }

  lemma ChainTouch(turns: seq<Turn>, h: seq<Saved>, d: Disk, d': Disk, id: nat, p: Path)
    requires turns != [] && Chain(turns, h, d)
    requires forall q | q != p :: SameAt(d, d', q)
    ensures var t := Last(turns);
            Chain(Front(turns) + [t.(changes := Mark(t.changes, id, p, StateOf(d, p), Content(d', p)))],
                  Touch(h, d, p, StateOf(d, p), Content(d', p)), d')
  {
    hide Fits, Mark, Entered;
    var t := Last(turns);
    var n := |turns| - 1;
    var turns' := Front(turns) + [t.(changes := Mark(t.changes, id, p, StateOf(d, p), Content(d', p)))];
    var h' := Touch(h, d, p, StateOf(d, p), Content(d', p));
    TouchLedger(turns, h, d, id, p, StateOf(d, p), Content(d', p));
    EnteredEmpty(t.changes, Last(h));
    assert Last(h').left != map[] by { assert p in Last(h').left; }
    forall i | 0 <= i < |turns'| && turns'[i].changes != []
      ensures Fits(h'[i].start, turns'[i].changes, EndOf(h', i, d'))
    {
      if i == n {
        FitsNone(d);
        assert EndOf(h, n, d) == d;
        FitsMark(h'[n].start, t.changes, d, d', id, p);
      } else {
        assert turns'[i] == turns[i] && h'[i] == h[i];
        if i + 1 < n {
          assert h'[i + 1] == h[i + 1];
          assert turns[i + 1].changes != [];
          EnteredEmpty(turns[i + 1].changes, h[i + 1]);
        } else {
          assert h'[i + 1] == Last(h') && h[i + 1] == Last(h);
        }
        assert EndOf(h', i, d') == EndOf(h, i, d);
      }
    }
  }

  lemma ChainSuccess(s: Store, h: seq<Saved>, d: Disk, d': Disk, p: Path)
    requires Chain(s.turns, h, d)
    requires forall q | q != p :: SameAt(d, d', q)
    ensures var r := After(Before(s, p, StateOf(d, p)).0, p, Content(d', p));
            Chain(r.turns, Keep(Touch(h, d, p, StateOf(d, p), Content(d', p)), |r.turns|), d')
  {
    hide Chain, Mark, Before, After;
    var c := EnsureTurn(s);
    var t := Last(c.turns);
    var o := OpenTurn(h, d);
    SuccessTurns(s, p, StateOf(d, p), Content(d', p));
    ChainOpen(s, h, d);
    ChainTouch(c.turns, o, d, d', c.nextChange, p);
    assert Touch(o, d, p, StateOf(d, p), Content(d', p)) == Touch(h, d, p, StateOf(d, p), Content(d', p));
    ChainSuffix(Front(c.turns) + [t.(changes := Mark(t.changes, c.nextChange, p, StateOf(d, p), Content(d', p)))],
                Touch(h, d, p, StateOf(d, p), Content(d', p)), d', |After(Before(s, p, StateOf(d, p)).0, p,
                                                                          Content(d', p)).turns|);
  }

  lemma ChainFailure(s: Store, h: seq<Saved>, d: Disk, p: Path, st: FileState)
    requires Chain(s.turns, h, d)
    ensures var (b, added) := Before(s, p, st);
            var r := if added then Discard(b, p) else b;
            Chain(r.turns, Keep(OpenTurn(h, d), |r.turns|), d)
  {
    hide Chain, Before, Discard;
    FailureTurns(s, p, st);
    ChainOpen(s, h, d);
    var (b, added) := Before(s, p, st);
    ChainSuffix(EnsureTurn(s).turns, OpenTurn(h, d), d, |(if added then Discard(b, p) else b).turns|);
  }

  lemma ChainBegin(s: Store, h: seq<Saved>, d: Disk, title: string)
    requires Chain(s.turns, h, d)
    ensures Chain(Begin(s, title).turns, BeginTurn(h, d), d)
  {
    hide Fits, Entered;
    BeginLedger(s, h, d, title);
    var r, h' := Begin(s, title).turns, BeginTurn(h, d);
    if s.turns != [] {
      EnteredEmpty(Last(s.turns).changes, Last(h));
    }
    forall i | 0 <= i < |r| && r[i].changes != [] ensures Fits(h'[i].start, r[i].changes, EndOf(h', i, d)) {
      assert i < |s.turns| && r[i].changes == s.turns[i].changes && h'[i] == h[i];
      assert EndOf(h', i, d) == EndOf(h, i, d);
    }
  }

  // Undo gives back the whole disk as it was when the turn first changed a file.
  lemma ChainUndo(w: World, h: seq<Saved>, force: bool)
    requires Chain(w.store.turns, h, w.disk) && UndoRefusal(w, force).None?
    ensures var (r, _) := Undo(w, force, {});
            && LastTouched(h) >= 0
            && r.disk == h[LastTouched(h)].start
            && Chain(r.store.turns, PopTurn(h), r.disk)
  {
    hide Fits, Entered, RestoreChanges, Release, UndoIndex, LastTouched, Conflicts, Unrestorable;
    var turns := w.store.turns;
    UndoIndexAgrees(turns, h);
    UndoIndexIsLast(turns);
    PopLedger(turns, h, w, force, {});
    var idx := UndoIndex(turns);
    var r := Undo(w, force, {}).0;
    var h' := PopTurn(h);
    var turns' := Without(turns, idx);
    ReleaseKeepsTurns(w.store, turns[idx].changes, {});
    assert r.store.turns == turns';
    LastEmpty(turns, h);
    assert EndOf(h, idx, w.disk) == w.disk;
    RestoreGivesStart(h[idx].start, turns[idx].changes, w.disk);
    forall i | 0 <= i < |turns'| && turns'[i].changes != []
      ensures Fits(h'[i].start, turns'[i].changes, EndOf(h', i, r.disk))
    {
      assert i < idx && turns'[i] == turns[i] && h'[i] == h[i];
      EnteredEmpty(turns[i + 1].changes, h[i + 1]);
      assert EndOf(h', i, r.disk) == EndOf(h, i, w.disk);
    }
  }

  // After the last turn with changes there is at most an empty one, in both lists.
  lemma LastEmpty(turns: seq<Turn>, h: seq<Saved>)
    requires Ledger(turns, h)
    ensures var i := UndoIndex(turns);
            i >= 0 ==> i >= |turns| - 2 && (i + 1 < |turns| ==> turns[i + 1].changes == [] && h[i + 1].left == map[])
  {
    hide Entered, UndoIndex;
    var i := UndoIndex(turns);
    UndoIndexIsLast(turns);
    if 0 <= i && i + 1 < |turns| {
      EnteredEmpty(turns[i + 1].changes, h[i + 1]);
    }
  }

  // ---- Runs ----

  lemma TrackedSnapshot(w: World, p: Path, readable: bool)
    requires Keepable(w, p, readable)
    ensures Snapshot(w, p, readable) == StateOf(w.disk, p) == Found(w, p, readable)
  {
    SnapshotIsFound(w, p, readable);
  }

  lemma ChainStep(w: World, h: seq<Saved>, op: Op)
    requires Chain(w.store.turns, h, w.disk) && Tracked(w, op)
    ensures Chain(Step(w, op).store.turns, Record(h, w, op), Step(w, op).disk)
  {
    hide Chain, Before, After, Discard, Begin, Undo, Snapshot, Keep, Touch, OpenTurn, BeginTurn, PopTurn, UndoRefusal;
    hide StateOf, Found, Keepable;
    ChainLengths(w.store.turns, h, w.disk);
    KeepAll(h);
    var d' := Step(w, op).disk;
    match op
    case DoBegin(title) =>
      ChainBegin(w.store, h, w.disk, title);
      ChainLengths(Begin(w.store, title).turns, BeginTurn(h, w.disk), w.disk);
      KeepAll(BeginTurn(h, w.disk));
    case DoWrite(p, data, e) =>
      TrackedSnapshot(w, p, e.readable);
      ChainSuccess(w.store, h, w.disk, d', p);
      ChainFailure(w.store, h, w.disk, p, StateOf(w.disk, p));
    case DoCreate(p, data, e) =>
      TrackedSnapshot(w, p, e.readable);
      ChainSuccess(w.store, h, w.disk, d', p);
      ChainFailure(w.store, h, w.disk, p, StateOf(w.disk, p));
    case DoRemove(p, e) =>
      TrackedSnapshot(w, p, e.readable);
      ChainSuccess(w.store, h, w.disk, d', p);
      ChainFailure(w.store, h, w.disk, p, StateOf(w.disk, p));
    case DoUndo(force, failing) =>
      UndoRefused(w, force, failing);
      if UndoRefusal(w, force).None? {
        ChainUndo(w, h, force);
        ChainLengths(Undo(w, force, failing).0.store.turns, PopTurn(h), d');
        KeepAll(PopTurn(h));
      }
    case Outside(_, _) =>
  }

  lemma ChainLengths(turns: seq<Turn>, h: seq<Saved>, d: Disk)
    requires Chain(turns, h, d)
    ensures |turns| == |h|
  {
  }

  lemma ChainNone(d: Disk)
    ensures Chain([], [], d)
  {
  }

  lemma {:induction false} ChainHolds(w: World, ops: seq<Op>)
    requires w.store.turns == [] && AllTracked(w, ops)
    ensures Chain(Run(w, ops).store.turns, History(w, ops), Run(w, ops).disk)
    decreases |ops|
  {
    hide Chain, Step, Record, Tracked;
    if ops == [] {
      ChainNone(w.disk);
    } else {
      ChainHolds(w, Front(ops));
      ChainStep(Run(w, Front(ops)), History(w, Front(ops)), Last(ops));
    }
  }

  function Undos(w: World, k: nat): World
    decreases k
  {
    if k == 0 then w else Undos(Undo(w, false, {}).0, k - 1)
  }

  // The turns of a history that changed files.
  function Changing(h: seq<Saved>): nat {
    LastTouched(h) + 1
  }

  // With nothing edited behind the tools' back, an undo is never refused for drift.
  lemma ChainNotRefused(w: World, h: seq<Saved>)
    requires Chain(w.store.turns, h, w.disk)
    ensures UndoRefusal(w, false) == if LastTouched(h) < 0 then Some(NothingToUndo) else None
  {
    hide Fits, Entered, UndoIndex, LastTouched, Conflicts, Unrestorable;
    var turns := w.store.turns;
    UndoIndexAgrees(turns, h);
    LastEmpty(turns, h);
    var i := UndoIndex(turns);
    if i >= 0 {
      assert EndOf(h, i, w.disk) == w.disk;
      FitsNoConflict(h[i].start, turns[i].changes, w.disk);
    }
  }

  lemma FitsNoConflict(start: Disk, changes: seq<Change>, end: Disk)
    requires Fits(start, changes, end)
    ensures !Conflicts(end, changes) && !Unrestorable(changes)
  {
    hide Find;
  }

  lemma PopShortens(turns: seq<Turn>, h: seq<Saved>)
    requires Ledger(turns, h) && LastTouched(h) >= 0
    ensures var i := LastTouched(h);
            && LastTouched(PopTurn(h)) == i - 1
            && forall j | 0 <= j < i :: PopTurn(h)[j] == h[j]
  {
    hide Entered;
    UndoIndexAgrees(turns, h);
    LastEmpty(turns, h);
    var i := LastTouched(h);
    var h' := PopTurn(h);
    if i > 0 {
      assert turns[i - 1].changes != [];
      EnteredEmpty(turns[i - 1].changes, h[i - 1]);
      assert h'[i - 1] == h[i - 1];
    }
    assert i < |h'| ==> h'[i] == h[i + 1];
  }

  lemma {:induction false} UndosGoBack(w: World, h: seq<Saved>, k: nat)
    requires Chain(w.store.turns, h, w.disk) && 0 < k <= Changing(h)
    ensures Undos(w, k).disk == h[Changing(h) - k].start
    decreases k
  {
    hide Chain, LastTouched, Undo, UndoRefusal, PopTurn;
    ChainNotRefused(w, h);
    ChainUndo(w, h, false);
    ChainIsLedger(w.store.turns, h, w.disk);
    PopShortens(w.store.turns, h);
    var next := Undo(w, false, {}).0;
    if k > 1 {
      UndosGoBack(next, PopTurn(h), k - 1);
    } else {
      assert Undos(w, 1) == Undos(next, 0);
    }
  }

  lemma ChainIsLedger(turns: seq<Turn>, h: seq<Saved>, d: Disk)
    requires Chain(turns, h, d)
    ensures Ledger(turns, h)
  {
  }

  // After any run of turns, tool writes, creates and removes (succeeding or failing), undos
  // and trimming, with nothing untracked, k undos give back the whole disk as it was when
  // the k-th most recent changing turn that is still kept first changed a file.
  lemma UndoIsInverse(w: World, ops: seq<Op>, k: nat)
    requires w.store.turns == [] && AllTracked(w, ops)
    requires 0 < k <= Changing(History(w, ops))
    ensures var h := History(w, ops);
            Undos(Run(w, ops), k).disk == h[Changing(h) - k].start
  {
    hide Chain, Run, History, LastTouched, Undos, AllTracked;
    ChainHolds(w, ops);
    UndosGoBack(Run(w, ops), History(w, ops), k);
  }

  // ---- Frame ----

  predicate Names(op: Op, p: Path) {
    match op
    case DoWrite(q, _, _) => q == p
    case DoCreate(q, _, _) => q == p
    case DoRemove(q, _) => q == p
    case Outside(q, _) => q == p
    case _ => false
  }

  ghost predicate NeverTouched(turns: seq<Turn>, p: Path) {
    forall i | 0 <= i < |turns| :: Find(turns[i].changes, p).None?
  }

  lemma SuffixNeverTouched(turns: seq<Turn>, n: nat, p: Path)
    requires n <= |turns| && NeverTouched(turns, p)
    ensures NeverTouched(Suffix(turns, n), p)
  {
    assert forall i | 0 <= i < n :: Suffix(turns, n)[i] == turns[|turns| - n + i];
  }

  lemma EnsureNeverTouched(s: Store, p: Path)
    requires NeverTouched(s.turns, p)
    ensures NeverTouched(EnsureTurn(s).turns, p)
  {
    hide Find;
    FindEmpty(p);
  }

  lemma SuccessNeverTouched(s: Store, q: Path, st: FileState, content: Option<string>, p: Path)
    requires NeverTouched(s.turns, p) && q != p
    ensures NeverTouched(After(Before(s, q, st).0, q, content).turns, p)
  {
    hide Before, After, Mark, Find, EnsureTurn;
    var c := EnsureTurn(s);
    var t := Last(c.turns);
    EnsureNeverTouched(s, p);
    SuccessTurns(s, q, st, content);
    MarkCovers(t.changes, c.nextChange, q, st, content, p);
    var all := Front(c.turns) + [t.(changes := Mark(t.changes, c.nextChange, q, st, content))];
    assert forall i | 0 <= i < |all| - 1 :: all[i] == c.turns[i];
    SuffixNeverTouched(all, |After(Before(s, q, st).0, q, content).turns|, p);
  }

  lemma FailureNeverTouched(s: Store, q: Path, st: FileState, p: Path)
    requires NeverTouched(s.turns, p)
    ensures var (b, added) := Before(s, q, st);
            NeverTouched((if added then Discard(b, q) else b).turns, p)
  {
    hide Before, Discard, NeverTouched, EnsureTurn;
    EnsureNeverTouched(s, p);
    FailureTurns(s, q, st);
    var (b, added) := Before(s, q, st);
    SuffixNeverTouched(EnsureTurn(s).turns, |(if added then Discard(b, q) else b).turns|, p);
  }

  lemma OtherNeverTouched(s: Store, q: Path, st: FileState, content: Option<string>, p: Path)
    requires NeverTouched(s.turns, p) && q != p
    ensures NeverTouched(After(Before(s, q, st).0, q, content).turns, p)
    ensures var (b, added) := Before(s, q, st);
            NeverTouched((if added then Discard(b, q) else b).turns, p)
  {
    hide Before, After, Discard, NeverTouched;
    SuccessNeverTouched(s, q, st, content, p);
    FailureNeverTouched(s, q, st, p);
  }

  lemma UndoNeverTouched(w: World, force: bool, failing: set<Path>, p: Path)
    requires NeverTouched(w.store.turns, p)
    ensures var r := Undo(w, force, failing).0; NeverTouched(r.store.turns, p) && SameAt(w.disk, r.disk, p)
  {
    hide Find, Release, RestoreChanges, UndoIndex, Conflicts, Unrestorable;
    var turns := w.store.turns;
    if UndoRefusal(w, force).None? {
      var idx := UndoIndex(turns);
      var r := Without(turns, idx);
      assert forall i | 0 <= i < |r| :: r[i] == turns[if i < idx then i else i + 1];
      RestoreOther(w.disk, turns[idx].changes, failing, p);
    }
  }

  lemma BeginNeverTouched(s: Store, title: string, p: Path)
    requires NeverTouched(s.turns, p)
    ensures NeverTouched(Begin(s, title).turns, p)
  {
    hide Find;
    FindEmpty(p);
  }

  lemma StepNeverTouched(w: World, op: Op, p: Path)
    requires NeverTouched(w.store.turns, p) && !Names(op, p)
    ensures NeverTouched(Step(w, op).store.turns, p) && SameAt(w.disk, Step(w, op).disk, p)
  {
    hide NeverTouched, Before, After, Discard, Begin, Undo, Snapshot;
    match op
    case DoBegin(title) => BeginNeverTouched(w.store, title, p);
    case DoWrite(q, data, e) =>
      OtherNeverTouched(w.store, q, Snapshot(w, q, e.readable), Content(Step(w, op).disk, q), p);
    case DoCreate(q, data, e) =>
      OtherNeverTouched(w.store, q, Snapshot(w, q, e.readable), Content(Step(w, op).disk, q), p);
    case DoRemove(q, e) => OtherNeverTouched(w.store, q, Snapshot(w, q, e.readable), Content(Step(w, op).disk, q), p);
    case DoUndo(force, failing) => UndoNeverTouched(w, force, failing, p);
    case Outside(_, _) =>
  }

  // A file no operation names keeps its bytes and its mode through any run, undos included.
  lemma {:induction false} UntouchedFilesNeverChange(w: World, ops: seq<Op>, p: Path)
    requires w.store.turns == [] && forall op | op in ops :: !Names(op, p)
    ensures NeverTouched(Run(w, ops).store.turns, p) && SameAt(w.disk, Run(w, ops).disk, p)
    decreases |ops|
  {
    hide NeverTouched, Step, Names;
    if ops == [] {
      NothingNeverTouched(p);
    } else {
      assert forall op | op in Front(ops) :: op in ops;
      UntouchedFilesNeverChange(w, Front(ops), p);
      assert Last(ops) in ops;
      StepNeverTouched(Run(w, Front(ops)), Last(ops), p);
    }
  }

  lemma NothingNeverTouched(p: Path)
    ensures NeverTouched([], p)
  {
  }
}
