/** The checkpoint store as the program keeps it: turns, changes and their index are shared,
    mutable objects (internal/tools/checkpoint.go). Every method is proved against the
    function of module CheckpointStore that it implements. */
module Checkpoints {
  import opened Results
  import opened CheckpointStore
  import opened CheckpointTurns
  import opened CheckpointBooks
  import opened CheckpointShape

  // The files on disk.
  class FileSystem {
    var files: Disk

    constructor (files: Disk)
      ensures this.files == files
    {
      this.files := files;
    }
  }

  class FileChange {
    ghost const id: nat
    const abs: Path
    const before: FileState
    var afterExists: bool
    var afterHash: string

    constructor (ghost id: nat, abs: Path, before: FileState)
      ensures this.id == id && this.abs == abs && this.before == before && !afterExists
    {
      this.id, this.abs, this.before := id, abs, before;
      afterExists, afterHash := false, "";
    }

    ghost function View(): Change
      reads this
    {
      Change(id, abs, before, if afterExists then Some(afterHash) else None)
    }
  }

  class TurnRecord {
    const id: nat
    var title: string
    var changes: seq<FileChange>
    var index: map<Path, FileChange>

    ghost var shown: Turn // the abstract turn these fields represent

    constructor (id: nat, title: string)
      ensures Valid() && changes == [] && shown == Turn(id, title, [])
    {
      this.id, this.title := id, title;
      changes, index := [], map[];
      shown := Turn(id, title, []);
    }

    // index and changes hold the same objects.
    ghost predicate Indexed()
      reads this
    {
      && (forall k | 0 <= k < |changes| :: changes[k].abs in index && index[changes[k].abs] == changes[k])
      && (forall p | p in index :: index[p].abs == p && index[p] in changes)
    }

    ghost predicate Valid()
      reads this, changes
    {
      && Indexed()
      && id == shown.id && title == shown.title
      && |changes| == |shown.changes|
      && (forall k | 0 <= k < |changes| :: changes[k].View() == shown.changes[k])
      && DistinctPaths(shown.changes)
    }

    // Looking a path up in the index is finding it in the list of changes.
    lemma IndexFinds(p: Path)
      requires Valid()
      ensures p in index <==> Find(shown.changes, p).Some?
      ensures p in index ==> var k := Find(shown.changes, p).value; k < |changes| && index[p] == changes[k]
    {
      if p in index {
        var k :| 0 <= k < |changes| && changes[k] == index[p];
        assert shown.changes[k] == changes[k].View();
        FindUnique(shown.changes, k);
      }
      var f := Find(shown.changes, p);
      if f.Some? {
        assert changes[f.value].View() == shown.changes[f.value];
        assert changes[f.value].abs == p;
      }
    }

    method Retitle(title: string)
      requires Valid()
      modifies this
      ensures Valid() && changes == old(changes) && shown == old(shown).(title := title)
    {
      this.title := title;
      shown := shown.(title := title);
    }

    method Append(ch: FileChange)
      requires Valid() && ch.abs !in index && !ch.afterExists
      modifies this
      ensures Valid() && changes == old(changes) + [ch]
      ensures shown == old(shown).(changes := old(shown).changes + [Change(ch.id, ch.abs, ch.before, None)])
    {
      forall k | 0 <= k < |changes| ensures shown.changes[k].path != ch.abs {
        assert shown.changes[k] == changes[k].View();
      }
      changes := changes + [ch];
      index := index[ch.abs := ch];
      shown := shown.(changes := shown.changes + [Change(ch.id, ch.abs, ch.before, None)]);
    }

    // Takes p's entry out of the index and of the list.
    method Drop(p: Path) returns (ch: FileChange)
      requires Valid() && p in index
      modifies this
      ensures Valid()
      ensures var k := Find(old(shown).changes, p).value;
              && Find(old(shown).changes, p).Some? && k < |old(changes)|
              && ch == old(changes)[k]
              && changes == old(changes)[..k] + old(changes)[k + 1..]
              && shown == old(shown).(changes := old(shown).changes[..k] + old(shown).changes[k + 1..])
    {
      hide Find;
      IndexFinds(p);
      ghost var found := Find(shown.changes, p).value;
      ch := index[p];
      index := index - {p};
      for i := 0 to |changes|
        invariant changes == old(changes) && index == old(index) - {p} && shown == old(shown)
        invariant forall j | 0 <= j < i :: changes[j] != ch
      {
        if changes[i] == ch {
          assert shown.changes[i] == changes[i].View() && shown.changes[found] == changes[found].View();
          assert i == found;
          changes := changes[..i] + changes[i + 1..];
          shown := shown.(changes := shown.changes[..i] + shown.changes[i + 1..]);
          DropValid(old(changes), old(shown), i);
          return;
        }
      }
      assert false;
    }

    lemma DropValid(cs: seq<FileChange>, v: Turn, i: nat)
      requires i < |cs| == |v.changes| && changes == cs[..i] + cs[i + 1..]
      requires shown == v.(changes := v.changes[..i] + v.changes[i + 1..]) && id == v.id && title == v.title
      requires forall k | 0 <= k < |cs| :: cs[k].View() == v.changes[k]
      requires DistinctPaths(v.changes)
      requires forall k | 0 <= k < |cs| && k != i :: cs[k].abs in index && index[cs[k].abs] == cs[k]
      requires forall p | p in index :: index[p].abs == p && p != cs[i].abs && index[p] in cs
      ensures Valid()
    {
      hide DistinctPaths;
      DistinctWithout(v.changes, i);
      DropShown(cs, v, i);
      forall k | 0 <= k < |changes| ensures changes[k].abs in index && index[changes[k].abs] == changes[k] {
        assert changes[k] == cs[if k < i then k else k + 1];
      }
      forall p | p in index ensures index[p] in changes {
        var k :| 0 <= k < |cs| && cs[k] == index[p];
        assert changes[if k < i then k else k - 1] == cs[k];
      }
    }

    lemma DropShown(cs: seq<FileChange>, v: Turn, i: nat)
      requires i < |cs| == |v.changes| && changes == cs[..i] + cs[i + 1..]
      requires shown.changes == v.changes[..i] + v.changes[i + 1..]
      requires forall k | 0 <= k < |cs| :: cs[k].View() == v.changes[k]
      ensures |changes| == |shown.changes| && forall k | 0 <= k < |changes| :: changes[k].View() == shown.changes[k]
    {
      forall k | 0 <= k < |changes| ensures changes[k].View() == shown.changes[k] {
        assert changes[k] == cs[if k < i then k else k + 1];
        assert shown.changes[k] == v.changes[if k < i then k else k + 1];
      }
    }

    // Records, in p's entry, what its file was left with.
    method SetAfter(p: Path, content: string, exists_: bool)
      requires Valid() && p in index
      modifies this`shown, index[p]
      ensures Valid()
      ensures var k := Find(old(shown).changes, p).value;
              && Find(old(shown).changes, p).Some? && k < |changes|
              && var ch := old(shown).changes[k].(after := if exists_ then Some(content) else None);
                 shown == old(shown).(changes := old(shown).changes[k := ch])
    {
      hide Find;
      IndexFinds(p);
      ghost var k := Find(shown.changes, p).value;
      var ch := index[p];
      forall j | 0 <= j < |changes| && j != k ensures changes[j] != ch {
        assert shown.changes[j] == changes[j].View() && shown.changes[k] == changes[k].View();
      }
      ch.afterExists := exists_;
      ch.afterHash := content;
      ghost var marked := shown.changes[k].(after := if exists_ then Some(content) else None);
      shown := shown.(changes := shown.changes[k := marked]);
    }
  }
  ghost function Ids(m: map<Path, FileChange>): map<Path, nat> {
    map p | p in m :: m[p].id
  }

  lemma IdsInsert(m: map<Path, FileChange>, p: Path, ch: FileChange)
    ensures Ids(m[p := ch]) == Ids(m)[p := ch.id]
  {
  }

  class Checkpoints {
    var turns: seq<TurnRecord>
    var nextID: nat
    var bytes: int
    const maxBytes: int
    var originals: map<Path, FileChange>

    ghost var store: Store           // the abstract store these fields represent
    ghost var made: seq<FileChange>  // every change ever recorded, by id
    ghost var Repr: set<object>

    // A change is known by its id: no other object has it.
    ghost predicate Known(ch: FileChange)
      reads this
    {
      ch.id < |made| && made[ch.id] == ch
    }

    ghost predicate Fields()
      reads this
    {
      && nextID == store.nextTurn && bytes == store.bytes && maxBytes == store.maxBytes
      && |made| == store.nextChange
      && Ids(originals) == store.originals
      && forall p | p in originals :: Known(originals[p])
    }

    ghost predicate Owned()
      reads this
    {
      && this in Repr
      && (forall i | 0 <= i < |turns| :: turns[i] in Repr)
      && (forall i | 0 <= i < |made| :: made[i] in Repr)
      && (forall i, j | 0 <= i < j < |turns| :: turns[i] != turns[j])
    }

    ghost predicate KnowsAll(t: TurnRecord)
      reads this, t
    {
      forall k | 0 <= k < |t.changes| :: Known(t.changes[k])
    }

    // Turn i is a consistent record showing the store's turn i.
    ghost predicate Holds(i: nat)
      requires i < |turns| == |store.turns|
      reads this, turns, made
    {
      && KnowsAll(turns[i])
      && turns[i].Valid()
      && turns[i].shown == store.turns[i]
    }

    ghost predicate Valid()
      reads this, turns, made
    {
      && Sound(store)
      && Fields()
      && Owned()
      && |turns| == |store.turns|
      && forall i: nat | i < |turns| :: Holds(i)
    }

    constructor (maxBytes: int)
      ensures Valid() && fresh(Repr) && store == NewStore(maxBytes)
    {
      this.maxBytes := if maxBytes <= 0 then DEFAULT_MAX_BYTES else maxBytes;
      turns, nextID, bytes, originals := [], 0, 0, map[];
      store, made := NewStore(maxBytes), [];
      Repr := {this};
    }

    method Begin(title: string)
      requires Valid()
      modifies Repr
      ensures Valid() && fresh(Repr - old(Repr))
      ensures store == CheckpointStore.Begin(old(store), title)
    {
      hide Sound, Find, TurnRecord.Indexed, FileChange.View, DistinctPaths;
      BeginSound(store, title);
      var n := |turns|;
      assert n > 0 ==> Holds(n - 1);
      if n > 0 && |turns[n - 1].changes| == 0 {
        // A newest turn that recorded nothing becomes the new one.
        turns[n - 1].Retitle(title);
      } else {
        nextID := nextID + 1;
        var t := new TurnRecord(nextID, title);
        turns := turns + [t];
        Repr := Repr + {t};
      }
      ghost var s := store;
      store := CheckpointStore.Begin(store, title);
      forall i: nat | i < n && i < |s.turns| ensures Holds(i) {
        assert old(Holds(i));
      }
    }

    // Allocates the entry for a change; it is in no turn yet.
    method NewChange(abs: Path, st: FileState) returns (ch: FileChange)
      requires Valid()
      modifies this
      ensures Valid() && Repr == old(Repr) + {ch} && fresh(ch)
      ensures Known(ch) && ch.id == old(store).nextChange && ch.abs == abs && ch.before == st && !ch.afterExists
      ensures turns == old(turns) && store == old(store).(nextChange := old(store).nextChange + 1)
      ensures bytes == old(bytes) && nextID == old(nextID) && originals == old(originals)
    {
      hide Find, TurnRecord.Valid, TurnRecord.Indexed, FileChange.View, WellFormedTurns, OrderedIds;
      ch := new FileChange(store.nextChange, abs, st);
      made := made + [ch];
      Repr := Repr + {ch};
      store := store.(nextChange := store.nextChange + 1);
      forall i: nat | i < |turns| ensures Holds(i) {
        assert old(Holds(i));
      }
    }

    // The store with one more change in its current turn.
    static ghost function Appended(s: Store, c: Change): Store
      requires s.turns != []
    {
      WithLast(s, Last(s.turns).(changes := Last(s.turns).changes + [c]))
    }

    static lemma AppendedSound(s: Store, abs: Path, st: FileState)
      requires Sound(s) && s.turns != [] && Find(Last(s.turns).changes, abs).None?
      ensures Sound(Appended(s.(nextChange := s.nextChange + 1), Change(s.nextChange, abs, st, None)))
    {
      hide WellFormedTurns, OrderedIds, IdsBelow, Find;
      RecordShape(s.turns, Change(s.nextChange, abs, st, None), s.nextChange);
    }

    method AppendToCurrent(ch: FileChange)
      requires Valid() && turns != [] && Known(ch) && !ch.afterExists
      requires ch.abs !in turns[|turns| - 1].index
      requires Sound(Appended(store, Change(ch.id, ch.abs, ch.before, None)))
      modifies this`store, turns[|turns| - 1]
      ensures Valid()
      ensures store == Appended(old(store), Change(ch.id, ch.abs, ch.before, None))
    {
      hide Sound, Find, TurnRecord.Valid, TurnRecord.Indexed, FileChange.View;
      var n := |turns|;
      var t := turns[n - 1];
      assert Holds(n - 1);
      t.Append(ch);
      ghost var s := store;
      store := Appended(store, Change(ch.id, ch.abs, ch.before, None));
      forall i: nat | i < n ensures Holds(i) {
        assert old(Holds(i));
        if i < n - 1 {
          assert turns[i] != t;
          assert store.turns[i] == s.turns[i];
        }
      }
    }

    // Adds a change to the current turn, which has none for its path.
    method Record(abs: Path, st: FileState)
      requires Valid() && turns != [] && abs !in turns[|turns| - 1].index
      requires Find(Last(store.turns).changes, abs).None?
      modifies Repr
      ensures Valid() && fresh(Repr - old(Repr))
      ensures store == Recorded(old(store), abs, st)
    {
      hide Sound, Find, TurnRecord.Valid, TurnRecord.Indexed, FileChange.View;
      ghost var s := store;
      AppendedSound(s, abs, st);
      RecordedSound(s, abs, st);
      var ch := NewChange(abs, st);
      AppendToCurrent(ch);
      Account(ch);
    }

    // Counts a new change's snapshot, and keeps it if it is its path's earliest.
    method Account(ch: FileChange)
      requires Valid() && Known(ch)
      modifies this`originals, this`bytes, this`store
      ensures Valid()
      ensures var s := old(store);
              store == s.(originals := if ch.abs in s.originals then s.originals else s.originals[ch.abs := ch.id],
                          bytes := s.bytes + Size(ch.before))
    {
      hide Find, TurnRecord.Valid, TurnRecord.Indexed, FileChange.View, WellFormedTurns, OrderedIds, IdsBelow;
      IdsInsert(originals, ch.abs, ch);
      ghost var s := store;
      store := s.(originals := if ch.abs in s.originals then s.originals else s.originals[ch.abs := ch.id],
                  bytes := s.bytes + Size(ch.before));
      if ch.abs !in originals {
        originals := originals[ch.abs := ch];
      }
      bytes := bytes + Size(ch.before);
      forall i: nat | i < |turns| ensures Holds(i) {
        assert old(Holds(i));
      }
    }

    // The new change goes into list, index, originals and byte count at once, and the turns are cut to the budget;
    // a path the turn has already is left as it is.
    method Before(abs: Path, st: FileState) returns (added: bool)
      requires Valid()
      modifies Repr
      ensures Valid() && fresh(Repr - old(Repr))
      ensures (store, added) == CheckpointStore.Before(old(store), abs, st)
    {
      hide CheckpointStore.Before, Sound, Recorded, TurnRecord.Valid, CheckpointStore.Begin, Find;
      BeforeRecords(store, abs, st);
      if |turns| == 0 {
        Begin("(no prompt)");
      }
      var t := turns[|turns| - 1];
      assert Holds(|turns| - 1);
      t.IndexFinds(abs);
      if abs in t.index {
        return false;
      }
      Record(abs, st);
      TrimLocked();
      return true;
    }

    // Takes one change's entry out of originals, if it is that change.
    method ForgetOriginal(ch: FileChange)
      requires Known(ch) && forall p | p in originals :: Known(originals[p])
      modifies this`originals
      ensures Ids(originals) == Forget(old(Ids(originals)), ch.id, ch.abs)
      ensures forall p | p in originals :: Known(originals[p])
    {
      if ch.abs in originals && originals[ch.abs] == ch {
        originals := originals - {ch.abs};
      }
    }

    // Drops the oldest turn and what it holds of the budget and of originals.
    method DropOldest()
      requires Valid() && |turns| > 1
      modifies this`turns, this`bytes, this`originals, this`store
      ensures Valid() && |turns| == |old(turns)| - 1
      ensures var s := old(store);
              store == s.(turns := s.turns[1..], bytes := s.bytes - TotalSize(s.turns[0].changes),
                          originals := ForgetAll(s.originals, s.turns[0].changes))
    {
      hide Find, TurnRecord.Valid, TurnRecord.Indexed, WellFormedTurns, OrderedIds, IdsBelow, Sound;
      var oldest := turns[0];
      ghost var s := store;
      ghost var cs := s.turns[0].changes;
      assert Holds(0);
      ShownChanges(oldest);
      var k := 0;
      while k < |oldest.changes|
        invariant 0 <= k <= |oldest.changes| == |cs|
        invariant ForgetAll(Ids(originals), cs[k..]) == ForgetAll(s.originals, cs)
        invariant bytes - TotalSize(cs[k..]) == s.bytes - TotalSize(cs)
        invariant forall p | p in originals :: Known(originals[p])
        invariant turns == old(turns) && store == s
      {
        var ch := oldest.changes[k];
        assert cs[k..][0] == cs[k] == ch.View() && cs[k..][1..] == cs[k + 1..];
        bytes := bytes - Size(ch.before);
        ForgetOriginal(ch);
        k := k + 1;
      }
      turns := turns[1..];
      store := s.(turns := s.turns[1..], bytes := s.bytes - TotalSize(cs), originals := ForgetAll(s.originals, cs));
      TailSound(s, store);
      forall i: nat | i < |turns| ensures Holds(i) {
        assert old(Holds(i + 1));
      }
    }

    lemma ShownChanges(t: TurnRecord)
      requires t.Valid()
      ensures |t.changes| == |t.shown.changes| &&
              forall k | 0 <= k < |t.changes| :: t.changes[k].View() == t.shown.changes[k]
    {
    }

    static lemma TailSound(s: Store, r: Store)
      requires Sound(s) && s.turns != [] && r.turns == s.turns[1..] && r.nextChange == s.nextChange
      ensures Sound(r)
    {
      hide WellFormedTurns, OrderedIds, IdsBelow;
      assert r.turns == Suffix(s.turns, |s.turns| - 1);
      SuffixWellFormed(s.turns, |s.turns| - 1);
      SuffixIds(s.turns, |s.turns| - 1, s.nextChange);
    }

    // As Trim does: ends within maxBytes, or with a single turn.
    method TrimLocked()
      requires Valid()
      modifies this`turns, this`bytes, this`originals, this`store
      ensures Valid() && Repr == old(Repr) && made == old(made)
      ensures store == Trim(old(store))
    {
      hide Sound, Holds, ForgetAll, TotalSize;
      while bytes > maxBytes && |turns| > 1
        invariant Valid() && Trim(store) == Trim(old(store))
        decreases |turns|
      {
        DropOldest();
      }
    }

    // Takes p's entry out of the current turn's list and index.
    method DropFromCurrent(p: Path) returns (ch: FileChange)
      requires Valid() && turns != [] && p in turns[|turns| - 1].index
      modifies this`store, turns[|turns| - 1]
      ensures Valid() && Known(ch)
      ensures var s := old(store);
              var t := Last(s.turns);
              && Find(t.changes, p).Some?
              && var k := Find(t.changes, p).value;
              && ch.View() == t.changes[k]
              && store == WithLast(s, t.(changes := t.changes[..k] + t.changes[k + 1..]))
    {
      hide Find, TurnRecord.Valid, TurnRecord.Indexed, FileChange.View, WellFormedTurns, OrderedIds, IdsBelow, Sound;
      var n := |turns|;
      DiscardSound(store, p);
      var t := turns[n - 1];
      assert Holds(n - 1);
      t.IndexFinds(p);
      ShownChanges(t);
      ghost var s := store;
      ghost var k := Find(t.shown.changes, p).value;
      assert Known(t.changes[k]) && t.changes[k].View() == Last(s.turns).changes[k];
      DiscardTurns(s, p, k);
      ch := t.Drop(p);
      store := WithLast(s, Last(s.turns).(changes := Last(s.turns).changes[..k] + Last(s.turns).changes[k + 1..]));
      forall i: nat | i < n ensures Holds(i) {
        assert old(Holds(i));
        if i < n - 1 {
          assert turns[i] != t;
          assert store.turns[i] == s.turns[i];
        }
      }
    }

    static lemma DiscardTurns(s: Store, p: Path, k: nat)
      requires Sound(s) && s.turns != [] && Find(Last(s.turns).changes, p) == Some(k)
      ensures Sound(WithLast(s, Last(s.turns).(changes := Last(s.turns).changes[..k] + Last(s.turns).changes[k + 1..])))
    {
      hide Find, Forget, WellFormedTurns, OrderedIds, IdsBelow;
      DiscardSound(s, p);
    }

    // Takes a change that is in no turn any more out of originals and of the byte count.
    method Unaccount(ch: FileChange)
      requires Valid() && Known(ch)
      modifies this`originals, this`bytes, this`store
      ensures Valid()
      ensures var s := old(store);
              store == s.(originals := Forget(s.originals, ch.id, ch.abs), bytes := s.bytes - Size(ch.before))
    {
      hide Find, TurnRecord.Valid, TurnRecord.Indexed, FileChange.View, WellFormedTurns, OrderedIds, IdsBelow, Forget;
      ghost var s := store;
      ForgetOriginal(ch);
      bytes := bytes - Size(ch.before);
      store := s.(originals := Forget(s.originals, ch.id, ch.abs), bytes := s.bytes - Size(ch.before));
      forall i: nat | i < |turns| ensures Holds(i) {
        assert old(Holds(i));
      }
    }

    static lemma DiscardUnfolds(s: Store, p: Path, k: nat)
      requires s.turns != [] && Find(Last(s.turns).changes, p) == Some(k)
      ensures var (t, ch) := (Last(s.turns), Last(s.turns).changes[k]);
        CheckpointStore.Discard(s, p) ==
          WithLast(s, t.(changes := t.changes[..k] + t.changes[k + 1..])).(
            originals := Forget(s.originals, ch.id, ch.path), bytes := s.bytes - Size(ch.before))
    {
      hide Find, Forget, Size, WithLast;
    }

    // Takes back what was recorded for abs, as if it had never been tried.
    method Discard(abs: Path)
      requires Valid()
      modifies Repr
      ensures Valid() && Repr == old(Repr)
      ensures store == CheckpointStore.Discard(old(store), abs)
    {
      hide Find, TurnRecord.Valid, TurnRecord.Indexed, WellFormedTurns, OrderedIds, IdsBelow, Sound, Size, Forget;
      var n := |turns|;
      if n == 0 {
        return;
      }
      var t := turns[n - 1];
      assert Holds(n - 1);
      t.IndexFinds(abs);
      if abs in t.index {
        DiscardUnfolds(store, abs, Find(Last(store.turns).changes, abs).value);
        var ch := DropFromCurrent(abs);
        Unaccount(ch);
      }
    }

    // No earlier turn shares a change with the current one.
    lemma TurnsApart(i: nat)
      requires Valid() && i < |turns| - 1
      ensures forall c | c in turns[i].changes :: c !in turns[|turns| - 1].changes
    {
      var n := |turns| - 1;
      assert Holds(i) && Holds(n);
      ShownChanges(turns[i]);
      ShownChanges(turns[n]);
      forall a, b | 0 <= a < |turns[i].changes| && 0 <= b < |turns[n].changes|
        ensures turns[i].changes[a] != turns[n].changes[b]
      {
        assert turns[i].changes[a].View() == store.turns[i].changes[a];
        assert turns[n].changes[b].View() == store.turns[n].changes[b];
        assert store.turns[i].changes[a].id < store.turns[n].changes[b].id;
      }
    }

    // Notes the file's new content in the one object that list and index share.
    method After(abs: Path, data: string, exists_: bool)
      requires Valid()
      modifies Repr
      ensures Valid() && Repr == old(Repr)
      ensures store == CheckpointStore.After(old(store), abs, if exists_ then Some(data) else None)
    {
      hide Find, TurnRecord.Valid, TurnRecord.Indexed, WellFormedTurns, OrderedIds, IdsBelow, Sound;
      var n := |turns|;
      if n == 0 {
        return;
      }
      AfterSound(store, abs, if exists_ then Some(data) else None);
      var t := turns[n - 1];
      assert Holds(n - 1);
      t.IndexFinds(abs);
      ghost var s := store;
      if abs in t.index {
        var ch := t.index[abs];
        forall i: nat | i < n - 1 ensures turns[i] != t && ch !in turns[i].changes {
          TurnsApart(i);
          assert ch in t.changes;
        }
        t.SetAfter(abs, data, exists_);
        store := CheckpointStore.After(s, abs, if exists_ then Some(data) else None);
        forall i: nat | i < n ensures Holds(i) {
          assert old(Holds(i));
          if i < n - 1 {
            assert store.turns[i] == s.turns[i];
            assert turns[i].Valid();
            assert KnowsAll(turns[i]);
            assert turns[i].shown == store.turns[i];
          } else {
            assert KnowsAll(t);
            assert t.shown == store.turns[i];
          }
        }
      }
    }

    // The most recent turn with changes.
    method LastChanged() returns (idx: int)
      requires Valid()
      ensures idx == UndoIndex(store.turns)
    {
      hide Sound, Find, TurnRecord.Indexed;
      var i := |turns|;
      assert store.turns[..i] == store.turns;
      while i > 0
        invariant 0 <= i <= |turns|
        invariant UndoIndex(store.turns) == UndoIndex(store.turns[..i])
      {
        i := i - 1;
        assert Holds(i);
        assert Front(store.turns[..i + 1]) == store.turns[..i] && Last(store.turns[..i + 1]) == store.turns[i];
        if |turns[i].changes| > 0 {
          return i;
        }
      }
      return -1;
    }

    // Whether a turn holds a file that cannot be restored, or one that no longer matches.
    static method Inspect(fs: FileSystem, t: TurnRecord) returns (unrestorable: bool, conflicts: bool)
      requires t.Valid()
      ensures unrestorable == Unrestorable(t.shown.changes)
      ensures conflicts == Conflicts(fs.files, t.shown.changes)
    {
      hide TurnRecord.Indexed, DistinctPaths;
      ghost var cs := t.shown.changes;
      unrestorable, conflicts := false, false;
      for k := 0 to |t.changes|
        invariant unrestorable <==> exists j | 0 <= j < k :: cs[j].before.TooLarge?
        invariant conflicts <==>
                    exists j | 0 <= j < k :: !cs[j].before.TooLarge? && Content(fs.files, cs[j].path) != cs[j].after
      {
        var ch := t.changes[k];
        assert ch.View() == cs[k];
        if ch.before.TooLarge? {
          unrestorable := true;
        } else {
          var exists_ := ch.abs in fs.files;
          if exists_ != ch.afterExists || (exists_ && fs.files[ch.abs].data != ch.afterHash) {
            conflicts := true;
          }
        }
      }
    }

    // Puts a turn's files back, last change first, and releases what was put back.
    method RestoreTurn(fs: FileSystem, t: TurnRecord, failing: set<Path>)
      requires fs !in Repr && t.Valid() && KnowsAll(t) && t in Repr
      requires forall p | p in originals :: Known(originals[p])
      modifies fs, this`bytes, this`originals
      ensures fs.files == RestoreChanges(old(fs.files), t.shown.changes, failing)
      ensures forall p | p in originals :: Known(originals[p])
      ensures var r := Release(old(Accounts()), t.shown.changes, failing);
              bytes == r.bytes && Ids(originals) == r.originals
    {
      hide TurnRecord.Indexed, DistinctPaths;
      ghost var cs := t.shown.changes;
      var i := |t.changes|;
      assert cs[..i] == cs;
      while i > 0
        invariant 0 <= i <= |t.changes| == |cs|
        invariant RestoreChanges(fs.files, cs[..i], failing) == RestoreChanges(old(fs.files), cs, failing)
        invariant Release(Accounts(), cs[..i], failing) == Release(old(Accounts()), cs, failing)
        invariant forall p | p in originals :: Known(originals[p])
      {
        i := i - 1;
        var ch := t.changes[i];
        assert ch.View() == cs[i];
        assert Front(cs[..i + 1]) == cs[..i] && Last(cs[..i + 1]) == cs[i];
        if ch.before.TooLarge? {
          continue;
        }
        if ch.abs in failing {
          continue;
        }
        fs.files := Restore(fs.files, ch.abs, ch.before);
        bytes := bytes - Size(ch.before);
        ForgetOriginal(ch);
      }
      assert cs[..0] == [];
    }

    // The store's byte count and originals, with the rest as it was last agreed.
    ghost function Accounts(): Store
      reads this
    {
      store.(bytes := bytes, originals := Ids(originals))
    }

    static lemma UndoUnfolds(w: World, force: bool, failing: set<Path>)
      ensures UndoRefusal(w, force).None? ==> UndoIndex(w.store.turns) >= 0
      ensures var (s, refusal, idx) := (w.store, UndoRefusal(w, force), UndoIndex(w.store.turns));
        var world :=
          if refusal.Some? then w
          else w.(disk := RestoreChanges(w.disk, s.turns[idx].changes, failing),
                  store := Release(s, s.turns[idx].changes, failing).(turns := Without(s.turns, idx)));
        CheckpointStore.Undo(w, force, failing) == (world, refusal)
    {
      hide UndoIndex, RestoreChanges, Release, Without, Conflicts, Unrestorable;
    }

    // Refuses and leaves everything alone, or puts a turn's files back and takes the turn out, as the function does.
    method Undo(fs: FileSystem, force: bool, failing: set<Path>, ghost w: World) returns (refusal: Option<UndoError>)
      requires Valid() && fs !in Repr && w.disk == fs.files && w.store == store
      modifies Repr, fs
      ensures Valid() && Repr == old(Repr)
      ensures (w.(disk := fs.files, store := store), refusal) == CheckpointStore.Undo(w, force, failing)
    {
      hide Sound, Find, TurnRecord.Valid, TurnRecord.Indexed, UndoIndex, RestoreChanges, Release, Conflicts;
      hide Unrestorable;
      hide CheckpointStore.Undo, FileChange.View, Forget;
      UndoSound(w, force, failing);
      UndoUnfolds(w, force, failing);
      var idx := LastChanged();
      if idx < 0 {
        return Some(NothingToUndo);
      }
      var t := turns[idx];
      assert Holds(idx);
      var unrestorable, conflicts := Inspect(fs, t);
      if unrestorable && !force {
        return Some(CannotRestore);
      }
      if conflicts && !force {
        return Some(Conflict);
      }
      assert Accounts() == store;
      RestoreTurn(fs, t, failing);
      ReleaseKeepsTurns(w.store, w.store.turns[idx].changes, failing);
      turns := turns[..idx] + turns[idx + 1..];
      store := CheckpointStore.Undo(w, force, failing).0.store;
      forall i: nat | i < |turns| ensures Holds(i) {
        assert old(Holds(if i < idx then i else i + 1));
        assert store.turns[i] == w.store.turns[if i < idx then i else i + 1];
      }
      return None;
    }
  }
}
