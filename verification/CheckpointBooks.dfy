/** The store's several records of the same changes agree: its byte count, and the earliest
    snapshot of each path. */
module CheckpointBooks {
  import opened Results
  import opened CheckpointStore
  import opened CheckpointTurns

  // ---- Bytes ----

  // What the failed restores of one undo leave in the byte count.
  function LeakOf(changes: seq<Change>, failing: set<Path>): nat {
    if changes == [] then 0
    else (if changes[0].path in failing then Size(changes[0].before) else 0) + LeakOf(changes[1..], failing)
  }

  function StepLeak(w: World, op: Op): nat {
    match op
    case DoUndo(force, failing) =>
      if UndoRefusal(w, force).Some? then 0 else LeakOf(w.store.turns[UndoIndex(w.store.turns)].changes, failing)
    case _ => 0
  }

  function Leaked(w: World, ops: seq<Op>): nat
    decreases |ops|
  {
    if ops == [] then 0 else Leaked(w, Front(ops)) + StepLeak(Run(w, Front(ops)), Last(ops))
  }

  lemma {:induction false} TotalSizeSplit(a: seq<Change>, b: seq<Change>)
    ensures TotalSize(a + b) == TotalSize(a) + TotalSize(b)
  {
    if a == [] {
      assert a + b == b;
    } else {
      assert (a + b)[1..] == a[1..] + b;
      TotalSizeSplit(a[1..], b);
    }
  }

  lemma {:induction false} TurnsSizeSplit(a: seq<Turn>, b: seq<Turn>)
    ensures TurnsSize(a + b) == TurnsSize(a) + TurnsSize(b)
  {
    if a == [] {
      assert a + b == b;
    } else {
      assert (a + b)[1..] == a[1..] + b;
      TurnsSizeSplit(a[1..], b);
    }
  }

  lemma TotalSizeOne(ch: Change)
    ensures TotalSize([ch]) == Size(ch.before)
  {
    assert [ch][1..] == [];
  }

  lemma TurnsSizeLast(turns: seq<Turn>)
    requires turns != []
    ensures TurnsSize(turns) == TurnsSize(Front(turns)) + TotalSize(Last(turns).changes)
  {
    TurnsSizeSplit(Front(turns), [Last(turns)]);
    assert turns == Front(turns) + [Last(turns)];
    assert [Last(turns)][1..] == [];
    assert TurnsSize([Last(turns)]) == TotalSize(Last(turns).changes);
  }

  lemma TurnsSizeWithout(turns: seq<Turn>, i: nat)
    requires i < |turns|
    ensures TurnsSize(Without(turns, i)) == TurnsSize(turns) - TotalSize(turns[i].changes)
  {
    hide TurnsSize, TotalSize;
    var a, b := turns[..i], turns[i + 1..];
    assert turns == a + ([turns[i]] + b);
    TurnsSizeSplit(a, [turns[i]] + b);
    TurnsSizeSplit(a, b);
    TurnsSizeFirst([turns[i]] + b);
    assert ([turns[i]] + b)[1..] == b;
  }

  lemma TurnsSizeFirst(turns: seq<Turn>)
    requires turns != []
    ensures TurnsSize(turns) == TotalSize(turns[0].changes) + TurnsSize(turns[1..])
  {
  }

  lemma {:induction false} TrimBalance(s: Store, leaked: int)
    requires s.bytes == TurnsSize(s.turns) + leaked
    ensures Trim(s).bytes == TurnsSize(Trim(s).turns) + leaked
    decreases |s.turns|
  {
    hide ForgetAll, TurnsSize, TotalSize, Trim;
    TrimStep(s);
    if s.bytes > s.maxBytes && |s.turns| > 1 {
      TurnsSizeFirst(s.turns);
      TrimBalance(Shorter(s), leaked);
    }
  }

  lemma BeginBalance(s: Store, title: string)
    ensures Begin(s, title).bytes == s.bytes && TurnsSize(Begin(s, title).turns) == TurnsSize(s.turns)
  {
    hide TurnsSize, TotalSize;
    TotalSizeNone();
    if s.turns != [] && Last(s.turns).changes == [] {
      WithLastBalance(s.turns, Last(s.turns).(title := title));
    } else {
      var t := Turn(s.nextTurn + 1, title, []);
      TurnsSizeSplit(s.turns, [t]);
      TurnsSizeFirst([t]);
      assert [t][1..] == [];
    }
  }

  lemma TotalSizeNone()
    ensures TotalSize([]) == 0 && TurnsSize([]) == 0
  {
  }

  lemma WithLastBalance(turns: seq<Turn>, t: Turn)
    requires turns != []
    ensures TurnsSize(Front(turns) + [t]) == TurnsSize(turns) - TotalSize(Last(turns).changes) + TotalSize(t.changes)
  {
    TurnsSizeLast(turns);
    TurnsSizeLast(Front(turns) + [t]);
    assert Front(Front(turns) + [t]) == Front(turns);
  }

  lemma BeforeBalance(s: Store, p: Path, st: FileState, leaked: int)
    requires s.bytes == TurnsSize(s.turns) + leaked
    ensures var r := Before(s, p, st).0; r.bytes == TurnsSize(r.turns) + leaked
  {
    hide Trim, Begin, TurnsSize, TotalSize, Find;
    var c := EnsureTurn(s);
    BeginBalance(s, "(no prompt)");
    var t := Last(c.turns);
    if !Touches(t, p) {
      hide EnsureTurn;
      var ch := Change(c.nextChange, p, st, None);
      TotalSizeSplit(t.changes, [ch]);
      TotalSizeOne(ch);
      WithLastBalance(c.turns, t.(changes := t.changes + [ch]));
      var recorded := WithLast(c, t.(changes := t.changes + [ch])).(
                        nextChange := c.nextChange + 1,
                        originals := if p in c.originals then c.originals else c.originals[p := ch.id],
                        bytes := c.bytes + Size(st));
      TrimBalance(recorded, leaked);
    }
  }

  lemma DropOneSize(changes: seq<Change>, k: nat)
    requires k < |changes|
    ensures TotalSize(changes[..k] + changes[k + 1..]) == TotalSize(changes) - Size(changes[k].before)
  {
    hide TotalSize, Size;
    var a, b := changes[..k], changes[k + 1..];
    assert changes == a + ([changes[k]] + b);
    TotalSizeSplit(a, [changes[k]] + b);
    TotalSizeSplit([changes[k]], b);
    TotalSizeSplit(a, b);
    TotalSizeOne(changes[k]);
  }

  lemma DiscardBalance(s: Store, p: Path, leaked: int)
    requires s.bytes == TurnsSize(s.turns) + leaked
    ensures var r := Discard(s, p); r.bytes == TurnsSize(r.turns) + leaked
  {
    hide TurnsSize, TotalSize, Find, Forget;
    if s.turns != [] {
      var t := Last(s.turns);
      var f := Find(t.changes, p);
      if f.Some? {
        DropOneSize(t.changes, f.value);
        WithLastBalance(s.turns, t.(changes := t.changes[..f.value] + t.changes[f.value + 1..]));
      }
    }
  }

  lemma MarkedSize(changes: seq<Change>, k: nat, content: Option<string>)
    requires k < |changes|
    ensures TotalSize(changes[k := changes[k].(after := content)]) == TotalSize(changes)
  {
    var a, b := changes[..k], changes[k + 1..];
    var ch := changes[k].(after := content);
    assert changes == a + ([changes[k]] + b);
    assert changes[k := ch] == a + ([ch] + b);
    TotalSizeSplit(a, [changes[k]] + b);
    TotalSizeSplit([changes[k]], b);
    TotalSizeSplit(a, [ch] + b);
    TotalSizeSplit([ch], b);
    TotalSizeOne(changes[k]);
    TotalSizeOne(ch);
  }

  lemma AfterBalance(s: Store, p: Path, content: Option<string>)
    ensures var r := After(s, p, content); r.bytes == s.bytes && TurnsSize(r.turns) == TurnsSize(s.turns)
  {
    hide TurnsSize, TotalSize, Find;
    if s.turns != [] {
      var t := Last(s.turns);
      var f := Find(t.changes, p);
      if f.Some? {
        MarkedSize(t.changes, f.value, content);
        WithLastBalance(s.turns, t.(changes := t.changes[f.value := t.changes[f.value].(after := content)]));
      }
    }
  }

  lemma {:induction false} LeakSplit(a: seq<Change>, b: seq<Change>, failing: set<Path>)
    ensures LeakOf(a + b, failing) == LeakOf(a, failing) + LeakOf(b, failing)
  {
    if a == [] {
      assert a + b == b;
    } else {
      assert (a + b)[1..] == a[1..] + b;
      LeakSplit(a[1..], b, failing);
    }
  }

  lemma {:induction false} ReleaseBalance(s: Store, changes: seq<Change>, failing: set<Path>)
    ensures Release(s, changes, failing).bytes == s.bytes - TotalSize(changes) + LeakOf(changes, failing)
    decreases |changes|
  {
    hide Forget;
    if changes != [] {
      var ch := Last(changes);
      assert changes == Front(changes) + [ch];
      TotalSizeSplit(Front(changes), [ch]);
      TotalSizeOne(ch);
      LeakSplit(Front(changes), [ch], failing);
      assert [ch][1..] == [];
      assert LeakOf([ch], failing) == if ch.path in failing then Size(ch.before) else 0;
      ReleaseBalance(if Restored(ch, failing)
                     then s.(bytes := s.bytes - Size(ch.before), originals := Forget(s.originals, ch.id, ch.path))
                     else s,
                     Front(changes), failing);
    }
  }

  lemma UndoBalance(w: World, force: bool, failing: set<Path>, leaked: int)
    requires w.store.bytes == TurnsSize(w.store.turns) + leaked
    ensures var r := Undo(w, force, failing).0.store;
            r.bytes == TurnsSize(r.turns) + leaked + StepLeak(w, DoUndo(force, failing))
  {
    hide Release, RestoreChanges, UndoIndex, TurnsSize, TotalSize, LeakOf, Conflicts, Unrestorable;
    if UndoRefusal(w, force).None? {
      var turns := w.store.turns;
      var idx := UndoIndex(turns);
      ReleaseBalance(w.store, turns[idx].changes, failing);
      TurnsSizeWithout(turns, idx);
    }
  }

  lemma StepBalance(w: World, op: Op, leaked: int)
    requires w.store.bytes == TurnsSize(w.store.turns) + leaked
    ensures var r := Step(w, op).store; r.bytes == TurnsSize(r.turns) + leaked + StepLeak(w, op)
  {
    hide Before, After, Discard, Begin, Undo, Snapshot, TurnsSize;
    match op
    case DoBegin(title) => BeginBalance(w.store, title);
    case DoWrite(p, data, e) => FileOpBalance(w, p, e, Content(Step(w, op).disk, p), leaked);
    case DoCreate(p, data, e) => FileOpBalance(w, p, e, Content(Step(w, op).disk, p), leaked);
    case DoRemove(p, e) => FileOpBalance(w, p, e, Content(Step(w, op).disk, p), leaked);
    case DoUndo(force, failing) => UndoBalance(w, force, failing, leaked);
    case Outside(_, _) =>
  }

  lemma FileOpBalance(w: World, p: Path, e: Env, content: Option<string>, leaked: int)
    requires w.store.bytes == TurnsSize(w.store.turns) + leaked
    ensures var (b, added) := Before(w.store, p, Snapshot(w, p, e.readable));
            && After(b, p, content).bytes == TurnsSize(After(b, p, content).turns) + leaked
            && Discard(b, p).bytes == TurnsSize(Discard(b, p).turns) + leaked
            && b.bytes == TurnsSize(b.turns) + leaked
  {
    hide Before, After, Discard, Snapshot, TurnsSize;
    var st := Snapshot(w, p, e.readable);
    BeforeBalance(w.store, p, st, leaked);
    var b := Before(w.store, p, st).0;
    AfterBalance(b, p, content);
    DiscardBalance(b, p, leaked);
  }

  // On every run the byte count is the size of the retained snapshots, plus exactly what
  // failed restores have left behind.
  lemma {:induction false} BytesAreAccountedFor(w: World, ops: seq<Op>)
    requires w.store.bytes == TurnsSize(w.store.turns)
    ensures var r := Run(w, ops).store; r.bytes == TurnsSize(r.turns) + Leaked(w, ops)
    decreases |ops|
  {
    hide Step, StepLeak, TurnsSize;
    if ops != [] {
      BytesAreAccountedFor(w, Front(ops));
      StepBalance(Run(w, Front(ops)), Last(ops), Leaked(w, Front(ops)));
    }
  }

  // A newly recorded change leaves the store within its budget, or with a single turn.
  lemma BudgetAfterRecording(s: Store, p: Path, st: FileState)
    ensures var (r, added) := Before(s, p, st);
            added ==> r.bytes <= r.maxBytes || |r.turns| == 1
  {
    hide Find, Begin, Trim, EnsureTurn;
    var c := EnsureTurn(s);
    if !Touches(Last(c.turns), p) {
      TrimRecorded(c, p, st);
      assert Before(s, p, st).0 == Trim(Recorded(c, p, st));
    }
  }

  // ---- Originals ----

  ghost predicate OrderedIds(turns: seq<Turn>) {
    forall i, j, a, b | 0 <= i < j < |turns| && 0 <= a < |turns[i].changes| && 0 <= b < |turns[j].changes| ::
      turns[i].changes[a].id < turns[j].changes[b].id
  }

  ghost predicate IdsBelow(turns: seq<Turn>, bound: nat) {
    forall i, a | 0 <= i < |turns| && 0 <= a < |turns[i].changes| :: turns[i].changes[a].id < bound
  }

  // The id of p's change in the oldest turn that touches p.
  function Oldest(turns: seq<Turn>, p: Path): Option<nat> {
    if turns == [] then None
    else
      match Find(turns[0].changes, p)
      case Some(k) => Some(turns[0].changes[k].id)
      case None => Oldest(turns[1..], p)
  }

  function Lookup(m: map<Path, nat>, p: Path): Option<nat> {
    if p in m then Some(m[p]) else None
  }

  ghost predicate OriginalsExact(s: Store) {
    forall p :: Lookup(s.originals, p) == Oldest(s.turns, p)
  }

  ghost predicate Booked(s: Store) {
    && WellFormedTurns(s.turns)
    && OrderedIds(s.turns)
    && IdsBelow(s.turns, s.nextChange)
    && OriginalsExact(s)
  }

  lemma {:induction false} OldestAppend(a: seq<Turn>, t: Turn, p: Path)
    ensures Oldest(a + [t], p) ==
            if Oldest(a, p).Some? then Oldest(a, p)
            else match Find(t.changes, p) case Some(k) => Some(t.changes[k].id) case None => None
  {
    hide Find;
    if a == [] {
      assert a + [t] == [t];
      assert [t][1..] == [];
    } else {
      assert (a + [t])[1..] == a[1..] + [t];
      OldestAppend(a[1..], t, p);
    }
  }

  lemma {:induction false} OldestIsSome(turns: seq<Turn>, p: Path) returns (i: nat, k: nat)
    requires Oldest(turns, p).Some?
    ensures i < |turns| && k < |turns[i].changes| && turns[i].changes[k].path == p &&
            Oldest(turns, p) == Some(turns[i].changes[k].id)
  {
    var f := Find(turns[0].changes, p);
    if f.Some? {
      i, k := 0, f.value;
    } else {
      i, k := OldestIsSome(turns[1..], p);
      i := i + 1;
    }
  }

  lemma {:induction false} OldestFirst(turns: seq<Turn>, p: Path, i: nat)
    requires i < |turns| && Find(turns[i].changes, p).Some?
    ensures Oldest(turns, p).Some?
  {
    hide Find;
    if i > 0 {
      OldestFirst(turns[1..], p, i - 1);
    }
  }

  // A fresh id is in no retained change.
  lemma OldestBelow(turns: seq<Turn>, bound: nat, p: Path)
    requires IdsBelow(turns, bound)
    ensures Oldest(turns, p).Some? ==> Oldest(turns, p).value < bound
  {
    hide Oldest;
    if Oldest(turns, p).Some? {
      var i, k := OldestIsSome(turns, p);
    }
  }

  ghost predicate SameIds(a: seq<Turn>, b: seq<Turn>) {
    && |a| == |b|
    && forall i | 0 <= i < |a| ::
      && |a[i].changes| == |b[i].changes|
      && forall k | 0 <= k < |a[i].changes| ::
           a[i].changes[k].path == b[i].changes[k].path && a[i].changes[k].id == b[i].changes[k].id
  }

  lemma {:induction false} FindByPath(a: seq<Change>, b: seq<Change>, p: Path)
    requires |a| == |b| && forall k | 0 <= k < |a| :: a[k].path == b[k].path
    ensures Find(a, p) == Find(b, p)
  {
    if a != [] {
      FindByPath(a[1..], b[1..], p);
    }
  }

  lemma {:induction false} OldestById(a: seq<Turn>, b: seq<Turn>, p: Path)
    requires SameIds(a, b)
    ensures Oldest(a, p) == Oldest(b, p)
  {
    hide Find;
    if a != [] {
      FindByPath(a[0].changes, b[0].changes, p);
      OldestById(a[1..], b[1..], p);
    }
  }

  // ---- Steps that drop nothing ----

  // Recording st drops no turn.
  predicate NoTrim(s: Store, st: FileState) {
    var c := EnsureTurn(s);
    c.bytes + Size(st) <= c.maxBytes || |c.turns| <= 1
  }

  lemma BeforeNoTrim(s: Store, p: Path, st: FileState)
    requires NoTrim(s, st)
    ensures var c := EnsureTurn(s);
            Before(s, p, st) == if Touches(Last(c.turns), p) then (c, false) else (Recorded(c, p, st), true)
  {
    hide Find, Begin, EnsureTurn;
  }

  // The current turn gets a new last change.
  lemma RecordBooked(s: Store, ch: Change)
    requires s.turns != [] && Booked(s) && ch.id == s.nextChange && Find(Last(s.turns).changes, ch.path).None?
    ensures var t := Last(s.turns);
            Booked(WithLast(s, t.(changes := t.changes + [ch])).(
                     nextChange := s.nextChange + 1,
                     originals := if ch.path in s.originals then s.originals else s.originals[ch.path := ch.id]))
  {
    hide Find, Oldest;
    var t := Last(s.turns);
    var t' := t.(changes := t.changes + [ch]);
    var r := WithLast(s, t').(nextChange := s.nextChange + 1,
                              originals := if ch.path in s.originals then s.originals
                                           else s.originals[ch.path := ch.id]);
    RecordShape(s.turns, ch, s.nextChange);
    forall p ensures Lookup(r.originals, p) == Oldest(r.turns, p) {
      assert s.turns == Front(s.turns) + [t];
      OldestAppend(Front(s.turns), t, p);
      OldestAppend(Front(s.turns), t', p);
      assert Lookup(s.originals, p) == Oldest(s.turns, p);
      if p == ch.path {
        FindAppended(t.changes, ch);
      } else {
        FindAppendedOther(t.changes, ch, p);
      }
    }
  }

  lemma {:induction false} FindAppendedOther(changes: seq<Change>, ch: Change, p: Path)
    requires p != ch.path
    ensures Find(changes + [ch], p) == Find(changes, p)
  {
    if changes == [] {
      assert [] + [ch] == [ch];
      assert [ch][1..] == [];
    } else {
      assert (changes + [ch])[1..] == changes[1..] + [ch];
      FindAppendedOther(changes[1..], ch, p);
    }
  }

  lemma RecordShape(turns: seq<Turn>, ch: Change, next: nat)
    requires turns != [] && WellFormedTurns(turns) && OrderedIds(turns) && IdsBelow(turns, next)
    requires ch.id == next && Find(Last(turns).changes, ch.path).None?
    ensures var t := Last(turns);
            var r := Front(turns) + [t.(changes := t.changes + [ch])];
            WellFormedTurns(r) && OrderedIds(r) && IdsBelow(r, next + 1)
  {
    hide Find;
    var t := Last(turns);
    var t' := t.(changes := t.changes + [ch]);
    var r := Front(turns) + [t'];
    var n := |turns| - 1;
    assert forall i | 0 <= i < n :: r[i] == turns[i];
    assert r[n] == t' && turns[n] == t;
    assert forall a | 0 <= a < |t.changes| :: t'.changes[a] == t.changes[a];
    forall i, a | 0 <= i < |r| && 0 <= a < |r[i].changes| ensures r[i].changes[a].id < next + 1 {
      assert i < n || a < |t.changes| ==> r[i].changes[a] == turns[i].changes[a];
    }
    forall i, j, a, b | 0 <= i < j < |r| && 0 <= a < |r[i].changes| && 0 <= b < |r[j].changes|
      ensures r[i].changes[a].id < r[j].changes[b].id
    {
      assert r[i].changes[a] == turns[i].changes[a];
      assert j < n || b < |t.changes| ==> r[j].changes[b] == turns[j].changes[b];
    }
  }

  lemma AfterBooked(s: Store, p: Path, content: Option<string>)
    requires Booked(s)
    ensures Booked(After(s, p, content))
  {
    hide Find, Oldest;
    var r := After(s, p, content);
    assert SameIds(s.turns, r.turns);
    forall q ensures Lookup(r.originals, q) == Oldest(r.turns, q) {
      assert Lookup(s.originals, q) == Oldest(s.turns, q);
      OldestById(s.turns, r.turns, q);
    }
    SameIdsShape(s.turns, r.turns, s.nextChange);
  }

  lemma SameIdsShape(a: seq<Turn>, b: seq<Turn>, next: nat)
    requires SameIds(a, b) && WellFormedTurns(a) && OrderedIds(a) && IdsBelow(a, next)
    ensures WellFormedTurns(b) && OrderedIds(b) && IdsBelow(b, next)
  {
    forall i | 0 <= i < |b| ensures DistinctPaths(b[i].changes) {
      assert DistinctPaths(a[i].changes);
    }
    forall i | 0 <= i < |b| - 1 ensures b[i].changes != [] {
      assert a[i].changes != [];
    }
  }

  lemma BeginBooked(s: Store, title: string)
    requires Booked(s)
    ensures Booked(Begin(s, title))
  {
    hide Find, Oldest, DistinctPaths;
    var r := Begin(s, title);
    BeginShape(s, title);
    if s.turns != [] && Last(s.turns).changes == [] {
      assert SameIds(s.turns, r.turns);
      SameIdsShape(s.turns, r.turns, s.nextChange);
    } else {
      assert forall i | 0 <= i < |s.turns| :: r.turns[i] == s.turns[i];
    }
    forall p ensures Lookup(r.originals, p) == Oldest(r.turns, p) {
      assert Lookup(s.originals, p) == Oldest(s.turns, p);
      if s.turns != [] && Last(s.turns).changes == [] {
        OldestById(s.turns, r.turns, p);
      } else {
        OldestAppend(s.turns, Turn(s.nextTurn + 1, title, []), p);
        FindEmpty(p);
      }
    }
  }

  // ---- A failed change ----

  lemma FailureOriginals(s: Store, p: Path, st: FileState)
    requires Booked(s) && NoTrim(s, st)
    ensures var (b, added) := Before(s, p, st);
            Booked(if added then Discard(b, p) else b)
  {
    hide Oldest, Begin, Booked, Before, NoTrim, Discard;
    var c := EnsureTurn(s);
    BeginBooked(s, "(no prompt)");
    BeforeNoTrim(s, p, st);
    if !Touches(Last(c.turns), p) {
      DiscardRecorded(c, p, st);
      BookedLater(c);
    }
  }

  // Discarding a change just recorded takes it back altogether.
  lemma DiscardRecorded(c: Store, p: Path, st: FileState)
    requires c.turns != [] && Booked(c) && !Touches(Last(c.turns), p)
    ensures Discard(Recorded(c, p, st), p) == c.(nextChange := c.nextChange + 1)
  {
    hide Find, Booked, Forget;
    var t := Last(c.turns);
    var ch := Change(c.nextChange, p, st, None);
    FindAppended(t.changes, ch);
    var grown := t.changes + [ch];
    assert grown[..|t.changes|] + grown[|t.changes| + 1..] == t.changes;
    FreshOriginal(c, ch);
    RestoredTurns(c, ch);
  }

  lemma RestoredTurns(c: Store, ch: Change)
    requires c.turns != []
    ensures var t := Last(c.turns);
            var w := WithLast(c, t.(changes := t.changes + [ch]));
            Front(w.turns) == Front(c.turns) && Last(w.turns) == t.(changes := t.changes + [ch]) &&
            Front(c.turns) + [t] == c.turns
  {
  }

  lemma FreshOriginal(c: Store, ch: Change)
    requires Booked(c) && ch.id == c.nextChange
    ensures Forget(if ch.path in c.originals then c.originals else c.originals[ch.path := ch.id], ch.id, ch.path) ==
              c.originals
  {
    hide Oldest, OrderedIds;
    assert Lookup(c.originals, ch.path) == Oldest(c.turns, ch.path);
    OldestBelow(c.turns, c.nextChange, ch.path);
  }

  lemma BookedLater(c: Store)
    requires Booked(c)
    ensures Booked(c.(nextChange := c.nextChange + 1))
  {
    hide Oldest, OrderedIds;
  }

  // ---- Undo ----

  // A release takes out the entries of exactly the changes that were put back.
  lemma {:induction false} ForgotByRelease(s: Store, changes: seq<Change>, failing: set<Path>, p: Path)
    ensures var r := Release(s, changes, failing).originals;
            && (p in r ==> p in s.originals && r[p] == s.originals[p])
            && (p in r <==>
                  p in s.originals &&
                  forall k | 0 <= k < |changes| && changes[k].path == p && Restored(changes[k], failing) ::
                    changes[k].id != s.originals[p])
    decreases |changes|
  {
    hide Restored;
    if changes != [] {
      var ch := Last(changes);
      var s' := s.(bytes := s.bytes - Size(ch.before), originals := Forget(s.originals, ch.id, ch.path));
      ForgotByRelease(if Restored(ch, failing) then s' else s, Front(changes), failing, p);
      assert forall k | 0 <= k < |changes| - 1 :: Front(changes)[k] == changes[k];
    }
  }

  lemma {:induction false} OldestWithout(turns: seq<Turn>, i: nat, p: Path)
    requires i < |turns| && (forall j | i < j < |turns| :: turns[j].changes == [])
    ensures Oldest(Without(turns, i), p) == Oldest(turns[..i], p)
    ensures Oldest(turns, p) == if Oldest(turns[..i], p).Some? then Oldest(turns[..i], p)
                                else match Find(turns[i].changes, p) case Some(k) => Some(turns[i].changes[k].id)
                                     case None => None
  {
    hide Find;
    OldestOfEmpty(turns[..i], turns[i + 1..], p);
    OldestOfEmpty(turns[..i + 1], turns[i + 1..], p);
    assert turns == turns[..i + 1] + turns[i + 1..];
    assert turns[..i + 1] == turns[..i] + [turns[i]];
    OldestAppend(turns[..i], turns[i], p);
  }

  lemma {:induction false} OldestOfEmpty(a: seq<Turn>, b: seq<Turn>, p: Path)
    requires forall j | 0 <= j < |b| :: b[j].changes == []
    ensures Oldest(a + b, p) == Oldest(a, p)
    decreases |b|
  {
    hide Find;
    if b == [] {
      assert a + b == a;
    } else {
      assert a + b == (a + [b[0]]) + b[1..];
      OldestOfEmpty(a + [b[0]], b[1..], p);
      OldestAppend(a, b[0], p);
      FindEmpty(p);
    }
  }

  lemma UndoBooked(w: World, force: bool)
    requires Booked(w.store) && UndoRefusal(w, force).None?
    requires !Unrestorable(w.store.turns[UndoIndex(w.store.turns)].changes)
    ensures Booked(Undo(w, force, {}).0.store)
  {
    hide Find, Oldest, UndoIndex, Release, RestoreChanges, Conflicts, DistinctPaths;
    var turns := w.store.turns;
    var idx := UndoIndex(turns);
    var changes := turns[idx].changes;
    var r := Undo(w, force, {}).0.store;
    UndoShape(w, force, {});
    ReleaseKeepsTurns(w.store, changes, {});
    WithoutIds(turns, idx, w.store.nextChange);
    forall p ensures Lookup(r.originals, p) == Oldest(r.turns, p) {
      UndoOriginal(w.store, idx, {}, p);
    }
  }

  lemma WithoutIds(turns: seq<Turn>, idx: nat, next: nat)
    requires idx < |turns| && OrderedIds(turns) && IdsBelow(turns, next)
    ensures OrderedIds(Without(turns, idx)) && IdsBelow(Without(turns, idx), next)
  {
    var r := Without(turns, idx);
    assert forall i | 0 <= i < |r| :: r[i] == turns[if i < idx then i else i + 1];
  }

  // A change that an undo left as it was: its file was too large to snapshot, or could not be put back.
  ghost predicate LeftAlone(changes: seq<Change>, failing: set<Path>, p: Path) {
    exists k | 0 <= k < |changes| && changes[k].path == p :: changes[k].before.TooLarge? || p in failing
  }

  // After undoing a turn, a path's original is that of the remaining turns unless its file was left alone and no
  // earlier turn touched it. Then the entry stays, of a change that is in no turn any more.
  lemma UndoOriginal(s: Store, idx: nat, failing: set<Path>, p: Path)
    requires Booked(s) && idx < |s.turns|
    requires forall j | idx < j < |s.turns| :: s.turns[j].changes == []
    ensures var (r, stale) := (Release(s, s.turns[idx].changes, failing).originals,
                               LeftAlone(s.turns[idx].changes, failing, p) && Oldest(s.turns[..idx], p).None?);
      && Lookup(r, p) == (if stale then Oldest(s.turns, p) else Oldest(Without(s.turns, idx), p))
      && (stale ==> Oldest(s.turns, p).Some? && Oldest(Without(s.turns, idx), p).None?)
  {
    hide Oldest, Release, IdsBelow, Find;
    var changes := s.turns[idx].changes;
    ForgotByRelease(s, changes, failing, p);
    OldestWithout(s.turns, idx, p);
    assert Lookup(s.originals, p) == Oldest(s.turns, p);
    if Oldest(s.turns[..idx], p).Some? {
      var i, k := OldestIsSome(s.turns[..idx], p);
      assert s.turns[..idx][i] == s.turns[i];
      assert forall b | 0 <= b < |changes| :: s.turns[i].changes[k].id < changes[b].id;
    } else {
      OnlyChange(changes, p);
    }
  }

  lemma OnlyChange(changes: seq<Change>, p: Path)
    requires DistinctPaths(changes)
    ensures forall k | 0 <= k < |changes| && changes[k].path == p :: Find(changes, p) == Some(k)
  {
    hide Find;
    forall k | 0 <= k < |changes| && changes[k].path == p ensures Find(changes, p) == Some(k) {
      FindUnique(changes, k);
    }
  }

  // An undo keeps the originals exact if and only if every file it left alone was touched by an earlier turn that is
  // still retained. Where one was not, the entry stays although no turn touches the file any more.
  lemma UndoKeepsOriginals(w: World, force: bool, failing: set<Path>)
    requires Booked(w.store) && UndoRefusal(w, force).None?
    ensures var (turns, idx) := (w.store.turns, UndoIndex(w.store.turns));
      idx >= 0 &&
      (OriginalsExact(Undo(w, force, failing).0.store) <==>
         forall p | LeftAlone(turns[idx].changes, failing, p) :: Touched(turns[..idx], p))
    ensures var (turns, r) := (w.store.turns, Undo(w, force, failing).0.store);
      forall p | LeftAlone(turns[UndoIndex(turns)].changes, failing, p) && !Touched(turns[..UndoIndex(turns)], p) ::
        p in r.originals && Lookup(r.originals, p) == Lookup(w.store.originals, p) && !Touched(r.turns, p)
  {
    hide Find, Oldest, UndoIndex, Release, RestoreChanges, Conflicts, Unrestorable, Booked, LeftAlone, Without, Touched;
    var (turns, idx) := (w.store.turns, UndoIndex(w.store.turns));
    var r := Undo(w, force, failing).0.store;
    forall p
      ensures Lookup(r.originals, p) == Oldest(r.turns, p) <==>
                (LeftAlone(turns[idx].changes, failing, p) ==> Touched(turns[..idx], p))
      ensures LeftAlone(turns[idx].changes, failing, p) && !Touched(turns[..idx], p) ==>
                p in r.originals && Lookup(r.originals, p) == Lookup(w.store.originals, p) && !Touched(r.turns, p)
    {
      BookedEntry(w.store, p);
      UndoOriginal(w.store, idx, failing, p);
      TouchedIsOldest(turns[..idx], p);
      TouchedIsOldest(r.turns, p);
    }
  }

  // ---- Runs ----

  // The operation drops no turn for the budget, and an undo puts every file back.
  predicate Lossless(w: World, op: Op) {
    match op
    case DoWrite(p, _, e) => NoTrim(w.store, Snapshot(w, p, e.readable))
    case DoCreate(p, _, e) => NoTrim(w.store, Snapshot(w, p, e.readable))
    case DoRemove(p, e) => NoTrim(w.store, Snapshot(w, p, e.readable))
    case DoUndo(force, failing) =>
      UndoRefusal(w, force).None? ==> failing == {} && !Unrestorable(w.store.turns[UndoIndex(w.store.turns)].changes)
    case _ => true
  }

  ghost predicate AllLossless(w: World, ops: seq<Op>)
    decreases |ops|
  {
    ops == [] || (AllLossless(w, Front(ops)) && Lossless(Run(w, Front(ops)), Last(ops)))
  }

  lemma SuccessBooked(s: Store, p: Path, st: FileState, content: Option<string>)
    requires Booked(s) && NoTrim(s, st)
    ensures Booked(After(Before(s, p, st).0, p, content))
  {
    hide Oldest, Begin, Booked, After, Before, NoTrim;
    var c := EnsureTurn(s);
    BeginBooked(s, "(no prompt)");
    BeforeNoTrim(s, p, st);
    if !Touches(Last(c.turns), p) {
      var ch := Change(c.nextChange, p, st, None);
      RecordBooked(c, ch);
      BookedBytes(WithLast(c, Last(c.turns).(changes := Last(c.turns).changes + [ch])).(
                    nextChange := c.nextChange + 1,
                    originals := if p in c.originals then c.originals else c.originals[p := ch.id]),
                    c.bytes + Size(st));
    }
    AfterBooked(Before(s, p, st).0, p, content);
  }

  lemma BookedBytes(s: Store, bytes: int)
    requires Booked(s)
    ensures Booked(s.(bytes := bytes))
  {
  }

  lemma StepBooked(w: World, op: Op)
    requires Booked(w.store) && Lossless(w, op)
    ensures Booked(Step(w, op).store)
  {
    hide Booked, Before, After, Discard, Begin, Undo, Snapshot, NoTrim, UndoRefusal;
    match op
    case DoBegin(title) => BeginBooked(w.store, title);
    case DoWrite(p, data, e) =>
      SuccessBooked(w.store, p, Snapshot(w, p, e.readable), Content(Step(w, op).disk, p));
      FailureOriginals(w.store, p, Snapshot(w, p, e.readable));
    case DoCreate(p, data, e) =>
      SuccessBooked(w.store, p, Snapshot(w, p, e.readable), Content(Step(w, op).disk, p));
      FailureOriginals(w.store, p, Snapshot(w, p, e.readable));
    case DoRemove(p, e) =>
      SuccessBooked(w.store, p, Snapshot(w, p, e.readable), Content(Step(w, op).disk, p));
      FailureOriginals(w.store, p, Snapshot(w, p, e.readable));
    case DoUndo(force, failing) =>
      if UndoRefusal(w, force).None? {
        UndoBooked(w, force);
      } else {
        RefusedUndo(w, force, failing);
      }
    case Outside(_, _) =>
  }

  lemma RefusedUndo(w: World, force: bool, failing: set<Path>)
    requires UndoRefusal(w, force).Some?
    ensures Undo(w, force, failing).0 == w
  {
  }

  // As long as no turn is dropped for the budget and every undone file is put back,
  // originals holds exactly each touched path's change from the oldest retained turn
  // touching it.
  lemma {:induction false} OriginalsAreOldest(w: World, ops: seq<Op>)
    requires Booked(w.store) && AllLossless(w, ops)
    ensures Booked(Run(w, ops).store)
    decreases |ops|
  {
    hide Booked, Step, Lossless;
    if ops != [] {
      OriginalsAreOldest(w, Front(ops));
      StepBooked(Run(w, Front(ops)), Last(ops));
    }
  }

  // ---- Dropping the oldest turn ----

  lemma {:induction false} ForgotAll(m: map<Path, nat>, changes: seq<Change>, p: Path)
    ensures var r := ForgetAll(m, changes);
            && (p in r ==> p in m && r[p] == m[p])
            && (p in r <==> p in m && forall k | 0 <= k < |changes| && changes[k].path == p :: changes[k].id != m[p])
  {
    if changes != [] {
      ForgotAll(Forget(m, changes[0].id, changes[0].path), changes[1..], p);
      assert forall k | 0 <= k < |changes[1..]| :: changes[1..][k] == changes[k + 1];
    }
  }

  // Some turn touches the path.
  ghost predicate Touched(turns: seq<Turn>, p: Path) {
    exists i | 0 <= i < |turns| :: Touches(turns[i], p)
  }

  lemma TouchedIsOldest(turns: seq<Turn>, p: Path)
    ensures Touched(turns, p) <==> Oldest(turns, p).Some?
  {
    hide Oldest, Find;
    if Touched(turns, p) {
      var i :| 0 <= i < |turns| && Touches(turns[i], p);
      OldestFirst(turns, p, i);
    }
    if Oldest(turns, p).Some? {
      var i, k := OldestIsSome(turns, p);
      assert Touches(turns[i], p);
    }
  }

  lemma {:induction false} OldestSplit(turns: seq<Turn>, n: nat, p: Path)
    requires n <= |turns|
    ensures Oldest(turns, p) == if Oldest(turns[..n], p).Some? then Oldest(turns[..n], p) else Oldest(turns[n..], p)
    decreases n
  {
    hide Find;
    if n == 0 {
      assert turns[0..] == turns && turns[..0] == [];
    } else {
      assert turns[1..][..n - 1] == turns[..n][1..] && turns[1..][n - 1..] == turns[n..];
      OldestSplit(turns[1..], n - 1, p);
    }
  }

  // A path's entry, if it has one, is its change in the oldest turn that touches it.
  predicate Entered(s: Store, p: Path) {
    p in s.originals ==> Oldest(s.turns, p) == Some(s.originals[p])
  }

  // Dropping the oldest turn takes the entries of the paths it touched with it and leaves the others.
  lemma ShorterOriginal(s: Store, p: Path)
    requires s.turns != [] && Entered(s, p)
    ensures Lookup(Shorter(s).originals, p) == if Touches(s.turns[0], p) then None else Lookup(s.originals, p)
    ensures Shorter(s).turns == s.turns[1..] && Entered(Shorter(s), p)
  {
    hide ForgetAll, TotalSize;
    var oldest := s.turns[0].changes;
    ForgotAll(s.originals, oldest, p);
    var f := Find(oldest, p);
    if f.Some? && p in s.originals {
      assert oldest[f.value].path == p && oldest[f.value].id == s.originals[p];
    }
  }

  function Dropped(s: Store): seq<Turn> {
    var n := |Trim(s).turns|;
    if n <= |s.turns| then s.turns[..|s.turns| - n] else []
  }

  lemma DroppedStep(s: Store)
    ensures Dropped(s) ==
            if s.bytes > s.maxBytes && |s.turns| > 1 then [s.turns[0]] + Dropped(Shorter(s)) else []
  {
    hide Trim, Shorter;
    TrimStep(s);
    if s.bytes > s.maxBytes && |s.turns| > 1 {
      TrimMeaning(Shorter(s));
      ShorterTurns(s);
      PrefixOfTail(s.turns, |s.turns| - |Trim(s).turns|);
    }
  }

  lemma ShorterTurns(s: Store)
    requires s.turns != []
    ensures Shorter(s).turns == s.turns[1..]
  {
  }

  lemma PrefixOfTail<T>(s: seq<T>, n: nat)
    requires 0 < n <= |s|
    ensures s[..n] == [s[0]] + s[1..][..n - 1]
  {
  }

  lemma {:induction false} TrimOriginal(s: Store, p: Path)
    requires Entered(s, p)
    ensures Lookup(Trim(s).originals, p) == if Touched(Dropped(s), p) then None else Lookup(s.originals, p)
    decreases |s.turns|
  {
    hide Trim, Touches, Entered, Dropped, Touched, Lookup, ForgetAll, TotalSize;
    TrimStep(s);
    DroppedStep(s);
    if s.bytes > s.maxBytes && |s.turns| > 1 {
      ShorterOriginal(s, p);
      TrimOriginal(Shorter(s), p);
      TouchedCons(s.turns[0], Dropped(Shorter(s)), p);
    } else {
      TouchedNone(p);
    }
  }

  lemma TouchedNone(p: Path)
    ensures !Touched([], p)
  {
  }

  lemma TouchedCons(t: Turn, rest: seq<Turn>, p: Path)
    ensures Touched([t] + rest, p) <==> Touches(t, p) || Touched(rest, p)
  {
    hide Touches;
    var all := [t] + rest;
    assert all[0] == t && forall i | 0 <= i < |rest| :: all[i + 1] == rest[i];
    if i :| 0 <= i < |all| && Touches(all[i], p) {
      assert i > 0 ==> Touches(rest[i - 1], p);
    }
  }

  // Trimming keeps the originals exact if and only if no path of a dropped turn is touched by a retained one. Where
  // one is, the path has no original any more.
  lemma TrimKeepsOriginals(s: Store)
    requires Booked(s)
    ensures OriginalsExact(Trim(s)) <==> forall p :: !(Touched(Dropped(s), p) && Touched(Trim(s).turns, p))
  {
    hide Booked, Find, Oldest, Trim, Touched;
    var r := Trim(s);
    TrimMeaning(s);
    forall p
      ensures Lookup(r.originals, p) == Oldest(r.turns, p) <==> !(Touched(Dropped(s), p) && Touched(r.turns, p))
    {
      BookedEntry(s, p);
      TrimOriginal(s, p);
      OldestSplit(s.turns, |s.turns| - |r.turns|, p);
      TouchedIsOldest(Dropped(s), p);
      TouchedIsOldest(r.turns, p);
    }
  }

  lemma BookedEntry(s: Store, p: Path)
    requires Booked(s)
    ensures Entered(s, p) && Lookup(s.originals, p) == Oldest(s.turns, p)
  {
    hide WellFormedTurns, OrderedIds, IdsBelow;
  }

  // ---- What takes the place of a forgotten original ----

  ghost predicate Newest(s: Store, p: Path, id: nat) {
    && s.turns != []
    && Lookup(s.originals, p) == Some(id)
    && forall i, a | 0 <= i < |s.turns| - 1 && 0 <= a < |s.turns[i].changes| :: s.turns[i].changes[a].id != id
  }

  lemma {:induction false} TrimKeepsNewest(s: Store, p: Path, id: nat)
    requires Newest(s, p, id)
    ensures Lookup(Trim(s).originals, p) == Some(id)
    decreases |s.turns|
  {
    hide Trim, TotalSize, ForgetAll;
    TrimStep(s);
    if s.bytes > s.maxBytes && |s.turns| > 1 {
      ForgotAll(s.originals, s.turns[0].changes, p);
      TrimKeepsNewest(Shorter(s), p, id);
    }
  }

  // The next time a path without an original is recorded, that change is entered as its original, whatever retained
  // turns touched the path before; and it is the wrong one exactly when one of those is still retained.
  lemma ForgottenIsReplaced(s: Store, p: Path, st: FileState)
    requires s.turns != [] && IdsBelow(s.turns, s.nextChange) && p !in s.originals && !Touches(Last(s.turns), p)
    ensures var r := Before(s, p, st).0;
      && r.turns != [] && Lookup(r.originals, p) == Some(s.nextChange)
      && (Lookup(r.originals, p) == Oldest(r.turns, p) <==> !Touched(Front(r.turns), p))
  {
    hide Trim, Find, Oldest, Touched, Size;
    var c := Recorded(s, p, st);
    var r := Before(s, p, st).0;
    assert r == Trim(c);
    assert forall i | 0 <= i < |c.turns| - 1 :: c.turns[i] == s.turns[i];
    TrimKeepsNewest(c, p, s.nextChange);
    TrimRecorded(s, p, st);
    LastOfTrimmed(s, p, st);
    var t := Last(r.turns);
    FindAppended(Last(s.turns).changes, Change(s.nextChange, p, st, None));
    assert r.turns == Front(r.turns) + [t];
    OldestAppend(Front(r.turns), t, p);
    TouchedIsOldest(Front(r.turns), p);
    if Oldest(Front(r.turns), p).Some? {
      var i, k := OldestIsSome(Front(r.turns), p);
      OlderTurn(s, c, r, i);
    }
  }

  lemma LastOfTrimmed(s: Store, p: Path, st: FileState)
    requires s.turns != []
    ensures var r := Trim(Recorded(s, p, st));
      r.turns != [] && Last(r.turns).changes == Last(s.turns).changes + [Change(s.nextChange, p, st, None)]
  {
    hide Trim;
    TrimRecorded(s, p, st);
  }

  lemma OlderTurn(s: Store, c: Store, r: Store, i: nat)
    requires s.turns != [] && |c.turns| == |s.turns| && (forall j | 0 <= j < |c.turns| - 1 :: c.turns[j] == s.turns[j])
    requires r == Trim(c) && i < |r.turns| - 1
    ensures Front(r.turns)[i] in s.turns
  {
    hide Trim;
    TrimMeaning(c);
    assert r.turns[i] == c.turns[|c.turns| - |r.turns| + i];
  }

  // ---- A run that forgets, and then replaces ----

  // Three turns write one file under a budget of three bytes; its three original bytes push the first turn out.
  const FORGETFUL: World := World(map["f" := File("abc", 420)], NewStore(3), 10, 420)

  function Rewrites(): seq<Op> {
    [DoBegin("a"), DoWrite("f", "x", Env(true, Succeeds)), DoBegin("b"), DoWrite("f", "y", Env(true, Succeeds)),
     DoBegin("c"), DoWrite("f", "z", Env(true, Succeeds))]
  }

  const FIRST: Turn := Turn(1, "a", [Change(0, "f", Present("abc", 420), Some("x"))])
  const SECOND: Turn := Turn(2, "b", [Change(1, "f", Present("x", 420), Some("y"))])
  const THIRD: Turn := Turn(3, "c", [Change(2, "f", Present("y", 420), Some("z"))])

  function HoldingText(text: string): Disk {
    map["f" := File(text, 420)]
  }

  // One turn that writes the file, with the store trimmed as it records.
  lemma WriteInNewTurn(w: World, title: string, text: string, turns: seq<Turn>, before: string)
    requires w.disk == HoldingText(before) && |before| <= w.limit && w.store.turns == turns
    requires forall i | 0 <= i < |turns| :: turns[i].changes != []
    ensures var c := Change(w.store.nextChange, "f", Present(before, 420), None);
      var t := Turn(w.store.nextTurn + 1, title, [c]);
      var r := Step(Step(w, DoBegin(title)), DoWrite("f", text, Env(true, Succeeds)));
      var trimmed := Trim(Store(turns + [t], w.store.nextTurn + 1, w.store.nextChange + 1, w.store.bytes + |before|,
                                w.store.maxBytes,
                                if "f" in w.store.originals then w.store.originals
                                else w.store.originals["f" := c.id]));
      r.disk == HoldingText(text) && r.limit == w.limit && r.store == After(trimmed, "f", Some(text))
  {
    hide Trim, After;
    var begun := Step(w, DoBegin(title));
    var t := Turn(w.store.nextTurn + 1, title, []);
    assert begun.store.turns == turns + [t];
    assert Front(turns + [t]) == turns && Last(turns + [t]) == t;
    assert [] + [Change(w.store.nextChange, "f", Present(before, 420), None)]
        == [Change(w.store.nextChange, "f", Present(before, 420), None)];
    assert w.disk["f" := File(text, 420)] == HoldingText(text);
  }

  lemma RunPair(w: World, ops: seq<Op>, a: Op, b: Op)
    ensures Run(w, ops + [a, b]) == Step(Step(Run(w, ops), a), b)
  {
    hide Step;
    RunMore(w, ops, a);
    RunMore(w, ops + [a], b);
    assert ops + [a] + [b] == ops + [a, b];
  }

  lemma AfterNewest(s: Store, before: seq<Turn>, t: Turn, c: Change, text: string)
    requires s.turns == before + [t] && t.changes == [c]
    ensures After(s, c.path, Some(text)) == s.(turns := before + [t.(changes := [c.(after := Some(text))])])
  {
    assert Front(s.turns) == before && Last(s.turns) == t;
    assert [c][0 := c.(after := Some(text))] == [c.(after := Some(text))];
  }

  lemma FirstTurn()
    ensures Run(FORGETFUL, Rewrites()[..2]) ==
              World(HoldingText("x"), Store([FIRST], 1, 1, 3, 3, map["f" := 0]), 10, 420)
  {
    var w, steps := FORGETFUL, Rewrites();
    assert steps[..2] == [] + [steps[0], steps[1]];
    RunNone(w);
    RunPair(w, [], steps[0], steps[1]);
    hide Run, Step, Trim, After, Before, Begin;
    WriteInNewTurn(w, "a", "x", [], "abc");
    StepsKeepMode(w, "a", "x");
    FirstRecorded();
  }

  lemma FirstRecorded()
    ensures var t := Turn(1, "a", [Change(0, "f", Present("abc", 420), None)]);
      var recorded := Store([] + [t], 1, 1, 0 + |"abc"|, 3, map["f" := 0]);
      After(Trim(recorded), "f", Some("x")) == Store([FIRST], 1, 1, 3, 3, map["f" := 0])
  {
    hide Trim, After;
    var t := Turn(1, "a", [Change(0, "f", Present("abc", 420), None)]);
    var recorded := Store([] + [t], 1, 1, 3, 3, map["f" := 0]);
    TrimStep(recorded);
    AfterNewest(recorded, [], t, t.changes[0], "x");
  }

  lemma RunNone(w: World)
    ensures Run(w, []) == w
  {
  }

  lemma StepsKeepMode(w: World, title: string, text: string)
    ensures Step(Step(w, DoBegin(title)), DoWrite("f", text, Env(true, Succeeds))).createMode == w.createMode
  {
  }

  // The second turn pushes the first out, and with it the file's original, though it touched the file itself.
  lemma SecondTurn()
    ensures Run(FORGETFUL, Rewrites()[..4]) == World(HoldingText("y"), Store([SECOND], 2, 2, 1, 3, map[]), 10, 420)
  {
    hide Run, Step, Trim, After, Shorter;
    var w := Run(FORGETFUL, Rewrites()[..2]);
    FirstTurn();
    assert Rewrites()[..4] == Rewrites()[..2] + [Rewrites()[2], Rewrites()[3]];
    RunPair(FORGETFUL, Rewrites()[..2], Rewrites()[2], Rewrites()[3]);
    WriteInNewTurn(w, "b", "y", [FIRST], "x");
    StepsKeepMode(w, "b", "y");
    var t := Turn(2, "b", [SECOND.changes[0].(after := None)]);
    var full := Store([FIRST] + [t], 2, 2, 4, 3, map["f" := 0]);
    var trimmed := Store([] + [t], 2, 2, 1, 3, map[]);
    FirstIsDropped(t);
    TrimStep(full);
    TrimStep(trimmed);
    AfterNewest(trimmed, [], t, t.changes[0], "y");
  }

  lemma FirstIsDropped(t: Turn)
    ensures Shorter(Store([FIRST] + [t], 2, 2, 4, 3, map["f" := 0])) == Store([] + [t], 2, 2, 1, 3, map[])
  {
    TotalSizeOne(FIRST.changes[0]);
    ForgetOne(FIRST.changes[0]);
    assert ([FIRST] + [t])[1..] == [] + [t];
  }

  lemma ForgetOne(ch: Change)
    ensures ForgetAll(map[ch.path := ch.id], [ch]) == map[]
  {
    assert [ch][1..] == [];
  }

  // The third enters its own change, which is not the earliest one retained.
  lemma ThirdTurn()
    ensures Run(FORGETFUL, Rewrites()) ==
              World(HoldingText("z"), Store([SECOND, THIRD], 3, 3, 2, 3, map["f" := 2]), 10, 420)
  {
    hide Run, Step, Trim, After;
    var w := Run(FORGETFUL, Rewrites()[..4]);
    SecondTurn();
    assert Rewrites() == Rewrites()[..4] + [Rewrites()[4], Rewrites()[5]];
    RunPair(FORGETFUL, Rewrites()[..4], Rewrites()[4], Rewrites()[5]);
    WriteInNewTurn(w, "c", "z", [SECOND], "y");
    StepsKeepMode(w, "c", "z");
    var t := Turn(3, "c", [THIRD.changes[0].(after := None)]);
    var recorded := Store([SECOND] + [t], 3, 3, 2, 3, map["f" := 2]);
    TrimStep(recorded);
    AfterNewest(recorded, [SECOND], t, t.changes[0], "z");
  }

  // It does happen: a run after which a file that a retained turn touched has no original, and one after which its
  // original is not its earliest retained change.
  lemma OriginalsGoWrong()
    ensures var s := Run(FORGETFUL, Rewrites()[..4]).store;
            Lookup(s.originals, "f") == None && Oldest(s.turns, "f") == Some(1)
    ensures var s := Run(FORGETFUL, Rewrites()).store;
            Lookup(s.originals, "f") == Some(2) && Oldest(s.turns, "f") == Some(1)
  {
    hide Run;
    SecondTurn();
    ThirdTurn();
  }
}
