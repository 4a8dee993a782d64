/** The shape of the store that every operation keeps, in full generality: trimming, failures
    and outside edits included. */
module CheckpointShape {
  import opened Results
  import opened CheckpointStore
  import opened CheckpointTurns
  import opened CheckpointBooks

  ghost predicate Sound(s: Store) {
    WellFormedTurns(s.turns) && OrderedIds(s.turns) && IdsBelow(s.turns, s.nextChange)
  }

  lemma SuffixIds(turns: seq<Turn>, n: nat, next: nat)
    requires n <= |turns| && OrderedIds(turns) && IdsBelow(turns, next)
    ensures OrderedIds(Suffix(turns, n)) && IdsBelow(Suffix(turns, n), next)
  {
    assert forall i | 0 <= i < n :: Suffix(turns, n)[i] == turns[|turns| - n + i];
  }

  lemma BeginSound(s: Store, title: string)
    requires Sound(s)
    ensures Sound(Begin(s, title))
  {
    hide DistinctPaths;
    var r := Begin(s, title);
    BeginShape(s, title);
    if s.turns != [] && Last(s.turns).changes == [] {
      assert SameIds(s.turns, r.turns);
      SameIdsShape(s.turns, r.turns, s.nextChange);
    } else {
      assert forall i | 0 <= i < |s.turns| :: r.turns[i] == s.turns[i];
    }
  }

  lemma RecordedSound(c: Store, p: Path, st: FileState)
    requires c.turns != [] && Sound(c) && !Touches(Last(c.turns), p)
    ensures Sound(Recorded(c, p, st))
  {
    hide WellFormedTurns, OrderedIds, IdsBelow, Find;
    RecordShape(c.turns, Change(c.nextChange, p, st, None), c.nextChange);
  }

  lemma AfterSound(s: Store, p: Path, content: Option<string>)
    requires Sound(s)
    ensures Sound(After(s, p, content))
  {
    hide Find, WellFormedTurns, OrderedIds, IdsBelow;
    var r := After(s, p, content);
    assert SameIds(s.turns, r.turns);
    SameIdsShape(s.turns, r.turns, s.nextChange);
  }

  lemma DiscardSound(s: Store, p: Path)
    requires Sound(s)
    ensures Sound(Discard(s, p))
  {
    hide Find, Forget;
    if s.turns != [] {
      var t := Last(s.turns);
      var f := Find(t.changes, p);
      if f.Some? {
        var k := f.value;
        var rest := t.changes[..k] + t.changes[k + 1..];
        assert forall a | 0 <= a < |rest| :: rest[a] == t.changes[if a < k then a else a + 1];
        var r := Front(s.turns) + [t.(changes := rest)];
        assert forall i | 0 <= i < |s.turns| - 1 :: r[i] == s.turns[i];
      }
    }
  }

  lemma UndoSound(w: World, force: bool, failing: set<Path>)
    requires Sound(w.store)
    ensures Sound(Undo(w, force, failing).0.store)
  {
    hide WellFormedTurns, OrderedIds, IdsBelow, Release, RestoreChanges, UndoIndex, Conflicts, Unrestorable;
    UndoShape(w, force, failing);
    if UndoRefusal(w, force).None? {
      var idx := UndoIndex(w.store.turns);
      ReleaseKeepsTurns(w.store, w.store.turns[idx].changes, failing);
      WithoutIds(w.store.turns, idx, w.store.nextChange);
    }
  }
}
