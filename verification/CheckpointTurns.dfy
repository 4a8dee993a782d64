/** What the store's operations do to the list of turns. */
module CheckpointTurns {
  import opened Results
  import opened CheckpointStore

  ghost predicate DistinctPaths(changes: seq<Change>) {
    forall i, j | 0 <= i < j < |changes| :: changes[i].path != changes[j].path
  }

  ghost predicate OnlyLastEmpty(turns: seq<Turn>) {
    forall i | 0 <= i < |turns| - 1 :: turns[i].changes != []
  }

  ghost predicate WellFormedTurns(turns: seq<Turn>) {
    && OnlyLastEmpty(turns)
    && forall i | 0 <= i < |turns| :: DistinctPaths(turns[i].changes)
  }

  function Suffix<T>(s: seq<T>, n: nat): seq<T>
    requires n <= |s|
  {
    s[|s| - n..]
  }

  lemma FindUnique(changes: seq<Change>, k: nat)
    requires k < |changes| && DistinctPaths(changes)
    ensures Find(changes, changes[k].path) == Some(k)
  {
    var f := Find(changes, changes[k].path);
    assert f.Some?;
    if f.value < k { assert false; }
  }

  lemma FindEmpty(p: Path)
    ensures Find([], p).None?
  {
  }

  lemma {:induction false} FindAppended(changes: seq<Change>, ch: Change)
    requires Find(changes, ch.path).None?
    ensures Find(changes + [ch], ch.path) == Some(|changes|)
  {
    if changes != [] {
      assert (changes + [ch])[1..] == changes[1..] + [ch];
      FindAppended(changes[1..], ch);
    }
  }

  // A turn's changes once p has been changed to content.
  function Mark(changes: seq<Change>, id: nat, p: Path, st: FileState, content: Option<string>): seq<Change> {
    match Find(changes, p)
    case Some(k) => changes[k := changes[k].(after := content)]
    case None => changes + [Change(id, p, st, content)]
  }

  // Replacing the last turn commutes with keeping the newest ones.
  lemma SuffixWithLast(all: seq<Turn>, n: nat, t: Turn)
    requires 0 < n <= |all|
    ensures Front(Suffix(all, n)) + [t] == Suffix(Front(all) + [t], n)
    ensures Last(Suffix(all, n)) == Last(all)
  {
  }

  // The store with a change recorded, before any trimming.
  function Recorded(c: Store, p: Path, st: FileState): Store
    requires c.turns != []
  {
    var t := Last(c.turns);
    var ch := Change(c.nextChange, p, st, None);
    WithLast(c, t.(changes := t.changes + [ch])).(
      nextChange := c.nextChange + 1,
      originals := if p in c.originals then c.originals else c.originals[p := ch.id],
      bytes := c.bytes + Size(st))
  }

  lemma TrimRecorded(c: Store, p: Path, st: FileState)
    requires c.turns != []
    ensures var t := Last(c.turns);
            var all := Front(c.turns) + [t.(changes := t.changes + [Change(c.nextChange, p, st, None)])];
            var b := Trim(Recorded(c, p, st));
            && 0 < |b.turns| <= |c.turns|
            && b.turns == Suffix(all, |b.turns|)
            && (b.bytes <= b.maxBytes || |b.turns| == 1)
  {
    hide Trim;
    TrimMeaning(Recorded(c, p, st));
  }

  lemma AfterAt(b: Store, p: Path, content: Option<string>, k: nat)
    requires b.turns != [] && Find(Last(b.turns).changes, p) == Some(k)
    ensures var t := Last(b.turns);
            After(b, p, content).turns ==
              Front(b.turns) + [t.(changes := t.changes[k := t.changes[k].(after := content)])]
  {
  }

  lemma DiscardAt(b: Store, p: Path, k: nat)
    requires b.turns != [] && Find(Last(b.turns).changes, p) == Some(k)
    ensures var t := Last(b.turns);
            Discard(b, p).turns == Front(b.turns) + [t.(changes := t.changes[..k] + t.changes[k + 1..])]
  {
    hide Forget;
  }

  lemma BeforeRecords(s: Store, p: Path, st: FileState)
    ensures var c := EnsureTurn(s);
            Before(s, p, st) == if Touches(Last(c.turns), p) then (c, false) else (Trim(Recorded(c, p, st)), true)
  {
    hide Find, Begin, Trim, EnsureTurn;
  }

  // A new change, and then its outcome.
  lemma NewChangeTurns(c: Store, p: Path, st: FileState, content: Option<string>)
    requires c.turns != [] && !Touches(Last(c.turns), p)
    ensures var t := Last(c.turns);
            var b := Trim(Recorded(c, p, st));
            var ok := After(b, p, content).turns;
            var failed := Discard(b, p).turns;
            && 0 < |ok| <= |c.turns| && 0 < |failed| <= |c.turns|
            && ok == Suffix(Front(c.turns) + [t.(changes := t.changes + [Change(c.nextChange, p, st, content)])], |ok|)
            && failed == Suffix(c.turns, |failed|)
  {
    hide Find, Trim, After, Discard, Recorded;
    var t := Last(c.turns);
    var ch := Change(c.nextChange, p, st, None);
    var grown := t.changes + [ch];
    var all := Front(c.turns) + [t.(changes := grown)];
    var b := Trim(Recorded(c, p, st));
    var k := |t.changes|;
    FindAppended(t.changes, ch);
    TrimRecorded(c, p, st);
    assert Last(all).changes == grown && Front(all) == Front(c.turns) && c.turns == Front(c.turns) + [t];
    assert grown[k := ch.(after := content)] == t.changes + [ch.(after := content)];
    assert grown[..k] + grown[k + 1..] == t.changes;
    SuffixWithLast(all, |b.turns|, t.(changes := grown[k := ch.(after := content)]));
    SuffixWithLast(all, |b.turns|, t.(changes := grown[..k] + grown[k + 1..]));
    AfterAt(b, p, content, k);
    DiscardAt(b, p, k);
  }

  // A successful change: the current turn is marked, and trimming may drop old turns.
  lemma SuccessTurns(s: Store, p: Path, st: FileState, content: Option<string>)
    ensures var c := EnsureTurn(s);
            var t := Last(c.turns);
            var r := After(Before(s, p, st).0, p, content);
            && 0 < |r.turns| <= |c.turns|
            && r.turns ==
                 Suffix(Front(c.turns) + [t.(changes := Mark(t.changes, c.nextChange, p, st, content))], |r.turns|)
  {
    hide Find, EnsureTurn, Before, After, Trim, Discard;
    var c := EnsureTurn(s);
    var t := Last(c.turns);
    BeforeRecords(s, p, st);
    if Touches(t, p) {
      AfterAt(c, p, content, Find(t.changes, p).value);
    } else {
      NewChangeTurns(c, p, st, content);
    }
  }

  // A failed change leaves the turns as they were, but for a turn it may have started
  // and for turns it may have trimmed.
  lemma FailureTurns(s: Store, p: Path, st: FileState)
    ensures var c := EnsureTurn(s);
            var (b, added) := Before(s, p, st);
            var r := if added then Discard(b, p) else b;
            0 < |r.turns| <= |c.turns| && r.turns == Suffix(c.turns, |r.turns|)
  {
    hide Find, EnsureTurn, Before, After, Trim, Discard;
    var c := EnsureTurn(s);
    BeforeRecords(s, p, st);
    if !Touches(Last(c.turns), p) {
      NewChangeTurns(c, p, st, None);
    }
  }

  // ---- Restoring ----

  lemma {:induction false} RestoreOther(d: Disk, changes: seq<Change>, failing: set<Path>, p: Path)
    requires forall k | 0 <= k < |changes| :: changes[k].path != p || p in failing
    ensures var r := RestoreChanges(d, changes, failing); (p in r <==> p in d) && (p in d ==> r[p] == d[p])
    decreases |changes|
  {
    if changes != [] {
      var ch := Last(changes);
      RestoreOther(if ch.path in failing then d else Restore(d, ch.path, ch.before), Front(changes), failing, p);
    }
  }

  // Undo puts each touched file into its state before the turn, and touches no other.
  lemma {:induction false} RestoreTouched(d: Disk, changes: seq<Change>, failing: set<Path>, k: nat)
    requires k < |changes| && DistinctPaths(changes) && changes[k].path !in failing
    ensures var ch := changes[k];
            var r := RestoreChanges(d, changes, failing);
            match ch.before
            case Absent => ch.path !in r
            case Present(data, mode) => ch.path in r && r[ch.path] == File(data, mode)
            case TooLarge => (ch.path in r <==> ch.path in d) && (ch.path in d ==> r[ch.path] == d[ch.path])
    decreases |changes|
  {
    var last := Last(changes);
    var d' := if last.path in failing then d else Restore(d, last.path, last.before);
    if k == |changes| - 1 {
      RestoreOther(d', Front(changes), failing, last.path);
    } else {
      RestoreTouched(d', Front(changes), failing, k);
    }
  }

  lemma UndoIndexIsLast(turns: seq<Turn>)
    requires OnlyLastEmpty(turns)
    ensures var r := UndoIndex(turns);
            turns != [] ==> r == if Last(turns).changes != [] then |turns| - 1 else |turns| - 2
  {
    if turns != [] && Last(turns).changes == [] && |turns| > 1 {
      assert turns[|turns| - 2].changes != [];
    }
  }

  // ---- The shape every operation keeps ----

  lemma DistinctWithout(changes: seq<Change>, i: nat)
    requires i < |changes| && DistinctPaths(changes)
    ensures DistinctPaths(changes[..i] + changes[i + 1..])
  {
    var r := changes[..i] + changes[i + 1..];
    assert forall k | 0 <= k < |r| :: r[k] == changes[if k < i then k else k + 1];
  }

  lemma MarkDistinct(changes: seq<Change>, id: nat, p: Path, st: FileState, content: Option<string>)
    requires DistinctPaths(changes)
    ensures DistinctPaths(Mark(changes, id, p, st, content)) && Mark(changes, id, p, st, content) != []
  {
    hide Find;
    var f := Find(changes, p);
    var m := Mark(changes, id, p, st, content);
    if f.Some? {
      assert forall i | 0 <= i < |changes| :: m[i].path == changes[i].path;
    } else {
      assert forall i | 0 <= i < |changes| :: m[i] == changes[i];
    }
  }

  lemma SuffixWellFormed(turns: seq<Turn>, n: nat)
    requires n <= |turns| && WellFormedTurns(turns)
    ensures WellFormedTurns(Suffix(turns, n))
  {
    assert forall i | 0 <= i < n :: Suffix(turns, n)[i] == turns[|turns| - n + i];
  }

  lemma EnsureTurnShape(s: Store)
    requires WellFormedTurns(s.turns)
    ensures WellFormedTurns(EnsureTurn(s).turns)
    ensures if s.turns == [] then |EnsureTurn(s).turns| == 1 && Last(EnsureTurn(s).turns).changes == []
            else EnsureTurn(s) == s
  {
  }

  lemma BeginShape(s: Store, title: string)
    requires WellFormedTurns(s.turns)
    ensures WellFormedTurns(Begin(s, title).turns)
  {
    var r := Begin(s, title).turns;
    if s.turns != [] && Last(s.turns).changes == [] {
      assert forall i | 0 <= i < |r| - 1 :: r[i] == s.turns[i];
    } else {
      assert forall i | 0 <= i < |s.turns| :: r[i] == s.turns[i];
      assert s.turns != [] ==> s.turns[|s.turns| - 1].changes != [];
    }
  }

  lemma SuccessShape(s: Store, p: Path, st: FileState, content: Option<string>)
    requires WellFormedTurns(s.turns)
    ensures WellFormedTurns(After(Before(s, p, st).0, p, content).turns)
  {
    hide Mark, Before, After;
    var c := EnsureTurn(s);
    var t := Last(c.turns);
    var r := After(Before(s, p, st).0, p, content);
    SuccessTurns(s, p, st, content);
    EnsureTurnShape(s);
    MarkDistinct(t.changes, c.nextChange, p, st, content);
    var all := Front(c.turns) + [t.(changes := Mark(t.changes, c.nextChange, p, st, content))];
    assert forall i | 0 <= i < |all| - 1 :: all[i] == c.turns[i];
    SuffixWellFormed(all, |r.turns|);
  }

  lemma FailureShape(s: Store, p: Path, st: FileState)
    requires WellFormedTurns(s.turns)
    ensures var (b, added) := Before(s, p, st);
            WellFormedTurns((if added then Discard(b, p) else b).turns)
  {
    hide Before, Discard;
    FailureTurns(s, p, st);
    EnsureTurnShape(s);
    var (b, added) := Before(s, p, st);
    SuffixWellFormed(EnsureTurn(s).turns, |(if added then Discard(b, p) else b).turns|);
  }

  lemma {:induction false} ReleaseKeepsTurns(s: Store, changes: seq<Change>, failing: set<Path>)
    ensures var r := Release(s, changes, failing);
            r == s.(bytes := r.bytes, originals := r.originals)
    decreases |changes|
  {
    hide Forget;
    if changes != [] {
      var ch := Last(changes);
      ReleaseKeepsTurns(if Restored(ch, failing)
                        then s.(bytes := s.bytes - Size(ch.before), originals := Forget(s.originals, ch.id, ch.path))
                        else s,
                        Front(changes), failing);
    }
  }

  lemma UndoShape(w: World, force: bool, failing: set<Path>)
    requires WellFormedTurns(w.store.turns)
    ensures WellFormedTurns(Undo(w, force, failing).0.store.turns)
  {
    hide Release, RestoreChanges, UndoIndex;
    var turns := w.store.turns;
    if UndoRefusal(w, force).None? {
      var idx := UndoIndex(turns);
      UndoIndexIsLast(turns);
      var r := Without(turns, idx);
      assert forall i | 0 <= i < |r| :: r[i] == turns[if i < idx then i else i + 1];
    }
  }

  // In every run only the last turn may be empty, and no turn records a path twice.
  lemma StepShape(w: World, op: Op)
    requires WellFormedTurns(w.store.turns)
    ensures WellFormedTurns(Step(w, op).store.turns)
  {
    hide WellFormedTurns, Before, After, Discard, Begin, Undo, Snapshot;
    match op
    case DoBegin(title) => BeginShape(w.store, title);
    case DoWrite(p, data, e) =>
      SuccessShape(w.store, p, Snapshot(w, p, e.readable), Content(Step(w, op).disk, p));
      FailureShape(w.store, p, Snapshot(w, p, e.readable));
    case DoCreate(p, data, e) =>
      SuccessShape(w.store, p, Snapshot(w, p, e.readable), Content(Step(w, op).disk, p));
      FailureShape(w.store, p, Snapshot(w, p, e.readable));
    case DoRemove(p, e) =>
      SuccessShape(w.store, p, Snapshot(w, p, e.readable), Content(Step(w, op).disk, p));
      FailureShape(w.store, p, Snapshot(w, p, e.readable));
    case DoUndo(force, failing) => UndoShape(w, force, failing);
    case Outside(_, _) =>
  }
}
