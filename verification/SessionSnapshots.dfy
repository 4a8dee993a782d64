/** What the store of sessions promises of its snapshots, over every sequence of operations. */
module SessionSnapshots {
  import opened SessionStore

  // ---- Which files a trace touches ----

  lemma TouchesTrans(a: Disk, b: Disk, c: Disk, id: Id)
    requires OnlyTouches(a, b, id) && OnlyTouches(b, c, id)
    ensures OnlyTouches(a, c, id)
  {
  }

  lemma RemoveTouches(d: Disk, id: Id, f: Faults, k: nat, n: nat)
    requires n < |RemoveTrace(d, id, f, k)|
    ensures OnlyTouches(d, RemoveTrace(d, id, f, k)[n], id)
    ensures id in RemoveTrace(d, id, f, k)[n].meta ==>
              id in d.meta && !f.ok(k) && RemoveTrace(d, id, f, k)[n].meta[id] == d.meta[id]
  {
  }

  lemma CopyTouches(d: Disk, src: Id, id: Id, m: Meta, f: Faults, n: nat)
    requires n < |CopyTrace(d, src, id, m, f)| && src != id
    ensures OnlyTouches(d, CopyTrace(d, src, id, m, f)[n], id)
  {
    hide OnlyTouches, RemoveTrace, Part;
    var ms, es := MessagesOf(d, src), EventsOf(d, src);
    var t := CopyTrace(d, src, id, m, f);
    if !f.ok(0) {
      var d0 := SetMessages(d, id, Part(ms, f.cut(0)));
      TouchMessages(d, id, Part(ms, f.cut(0)));
      RemoveAfterTouches(d, d0, id, f, if n == 0 then 0 else n - 1);
    } else {
      var d1 := SetMessages(d, id, ms);
      TouchMessages(d, id, ms);
      TouchEvents(d1, id, if f.ok(1) then es else Part(es, f.cut(1)));
      TouchNothing(d1, id);
      var d2 := if src !in d.events then d1 else SetEvents(d1, id, if f.ok(1) then es else Part(es, f.cut(1)));
      TouchesTrans(d, d1, d2, id);
      TouchMeta(d2, id, m);
      TouchesTrans(d, d2, SetMeta(d2, id, m), id);
      if n >= 2 && !Copies(d, src, f) {
        RemoveAfterTouches(d, d2, id, f, n - 2);
      }
    }
  }

  lemma TouchMessages(d: Disk, id: Id, ms: seq<Message>)
    ensures OnlyTouches(d, SetMessages(d, id, ms), id)
  {
  }

  lemma TouchEvents(d: Disk, id: Id, es: seq<nat>)
    ensures OnlyTouches(d, SetEvents(d, id, es), id)
  {
  }

  lemma TouchMeta(d: Disk, id: Id, m: Meta)
    ensures OnlyTouches(d, SetMeta(d, id, m), id)
  {
  }

  lemma TouchNothing(d: Disk, id: Id)
    ensures OnlyTouches(d, d, id)
  {
  }

  lemma RemoveAfterTouches(d: Disk, e: Disk, id: Id, f: Faults, n: nat)
    requires OnlyTouches(d, e, id)
    ensures n < |RemoveTrace(e, id, f, 3)| ==> OnlyTouches(d, RemoveTrace(e, id, f, 3)[n], id)
  {
    hide OnlyTouches, RemoveTrace;
    if n < |RemoveTrace(e, id, f, 3)| {
      RemoveTouches(e, id, f, 3, n);
      TouchesTrans(d, e, RemoveTrace(e, id, f, 3)[n], id);
    }
  }

  // ---- A copy is never seen half-written ----

  predicate WholeCopy(d: Disk, src: Id, e: Disk, id: Id, m: Meta) {
    id in e.meta ==> e.meta[id] == m && MessagesOf(e, id) == MessagesOf(d, src) && EventsOf(e, id) == EventsOf(d, src)
  }

  // At every point of a copy its target cannot be seen at all, or holds everything its source does.
  lemma CopiesAreWhole(d: Disk, src: Id, id: Id, m: Meta, f: Faults, n: nat)
    requires id !in d.meta && id !in d.events && n < |CopyTrace(d, src, id, m, f)|
    ensures WholeCopy(d, src, CopyTrace(d, src, id, m, f)[n], id, m)
    ensures id in Last(CopyTrace(d, src, id, m, f)).meta <==> Copies(d, src, f)
  {
    hide RemoveTrace;
    var t := CopyTrace(d, src, id, m, f);
    if Copies(d, src, f) {
      assert |t| == 3;
    } else if !f.ok(0) {
      var d0 := SetMessages(d, id, Part(MessagesOf(d, src), f.cut(0)));
      StaysUnseen(d0, id, f);
    } else {
      var d1 := SetMessages(d, id, MessagesOf(d, src));
      var es := if f.ok(1) then EventsOf(d, src) else Part(EventsOf(d, src), f.cut(1));
      StaysUnseen(if src in d.events then SetEvents(d1, id, es) else d1, id, f);
    }
  }

  lemma StaysUnseen(d: Disk, id: Id, f: Faults)
    requires id !in d.meta
    ensures forall n | 0 <= n < |RemoveTrace(d, id, f, 3)| :: id !in RemoveTrace(d, id, f, 3)[n].meta
    ensures id !in Last(RemoveTrace(d, id, f, 3)).meta
  {
  }

  // ---- Snapshots stay as they were saved ----

  lemma UntouchedIsSame(d: Disk, e: Disk, other: Id, id: Id)
    requires OnlyTouches(d, e, other) && other != id
    ensures SameSnapshot(d, e, id) && (IsSnapshot(e, id) <==> IsSnapshot(d, id)) && (id in e.meta <==> id in d.meta)
  {
  }

  lemma SameTrans(a: Disk, b: Disk, c: Disk, id: Id)
    requires SameSnapshot(a, b, id) && SameSnapshot(b, c, id)
    ensures SameSnapshot(a, c, id)
  {
  }

  lemma CopyKeeps(d: Disk, src: Id, target: Id, m: Meta, f: Faults, id: Id)
    requires src != target && id != target
    ensures TraceKeeps(d, CopyTrace(d, src, target, m, f), id)
  {
    hide CopyTrace, OnlyTouches, SameSnapshot;
    var t := CopyTrace(d, src, target, m, f);
    forall n | 0 <= n < |t| ensures SameSnapshot(d, t[n], id) {
      CopyTouches(d, src, target, m, f, n);
      UntouchedIsSame(d, t[n], target, id);
    }
  }

  // Whether taking the old snapshot away leaves its transcript alone for as long as it can be seen.
  predicate LeavesNoHalf(d: Disk, id: Id, f: Faults, k: nat) {
    f.ok(k) || ((f.ok(k + 1) ==> MessagesOf(d, id) == []) && (f.ok(k + 2) ==> EventsOf(d, id) == []))
  }

  lemma RemoveKeepsItself(d: Disk, id: Id, f: Faults, k: nat)
    requires id in d.meta
    ensures TraceKeeps(d, RemoveTrace(d, id, f, k), id) <==> LeavesNoHalf(d, id, f, k)
  {
    var t := RemoveTrace(d, id, f, k);
    if !f.ok(k) {
      assert t[2] == Last(t);
      assert id in t[2].meta && id in t[1].meta && id in t[0].meta;
      assert SameSnapshot(d, t[0], id);
      assert SameSnapshot(d, t[1], id) <==> (f.ok(k + 1) ==> MessagesOf(d, id) == []);
      assert SameSnapshot(d, t[2], id) <==>
               (f.ok(k + 1) ==> MessagesOf(d, id) == []) && (f.ok(k + 2) ==> EventsOf(d, id) == []);
    } else {
      assert forall n | 0 <= n < 3 :: id !in t[n].meta;
    }
  }

  // The old snapshot of a replace, and whether it is taken away as it should be.
  ghost predicate Replaces(d: Disk, op: Op) {
    op.Save? && ValidName(op.name) && FindName(d, op.name).Some? && op.replace && Savable(d, op.src) &&
    Copies(d, op.src, op.f)
    && FindName(d, op.name).value != op.id
  }

  ghost predicate CleanReplace(s: Store, op: Op) {
    Replaces(s.disk, op) ==> op.f.ok(6)
  }

  lemma SaveKeeps(s: Store, op: Op, id: Id)
    requires Sound(s) && op.Save? && Legal(s, op) && IsSnapshot(s.disk, id)
    ensures TraceKeeps(s.disk, Trace(s, op), id)
      <==> (Replaces(s.disk, op) && FindName(s.disk, op.name).value == id ==> LeavesNoHalf(s.disk, id, op.f, 6))
  {
    hide CopyTrace, RemoveTrace, OnlyTouches, SameSnapshot, FindName, LeavesNoHalf, Savable;
    var d, f := s.disk, op.f;
    var found := FindName(d, op.name);
    if ValidName(op.name) && !(found.Some? && !op.replace) && Savable(d, op.src) {
      assert op.src in d.meta by { SavableHasMeta(d, op.src); }
      assert FreshId(s, op.id);
      assert op.src in s.used && id in s.used && op.src != op.id && id != op.id;
      var m := SnapshotMeta(d, op.src, op.name);
      var copy := CopyTrace(d, op.src, op.id, m, f);
      CopyKeeps(d, op.src, op.id, m, f, id);
      if Replaces(d, op) {
        var rest := RemoveTrace(Last(copy), found.value, f, 6);
        CopyTouches(d, op.src, op.id, m, f, |copy| - 1);
        UntouchedIsSame(d, Last(copy), op.id, id);
        if found.value == id {
          RemoveKeepsItself(Last(copy), id, f, 6);
          LeavesSame(d, Last(copy), id, f, 6);
          SameOnward(d, Last(copy), rest, id);
        } else {
          forall n | 0 <= n < |rest| ensures SameSnapshot(d, rest[n], id) {
            RemoveTouches(Last(copy), found.value, f, 6, n);
            UntouchedIsSame(Last(copy), rest[n], found.value, id);
            SameTrans(d, Last(copy), rest[n], id);
          }
        }
        KeepsConcat(d, copy, rest, id);
        assert Trace(s, op) == copy + rest;
      } else {
        assert Trace(s, op) == copy;
      }
    }
  }

  lemma SavableHasMeta(d: Disk, src: Id)
    requires Savable(d, src)
    ensures src in d.meta
  {
  }

  lemma LeavesSame(d: Disk, e: Disk, id: Id, f: Faults, k: nat)
    requires SameSnapshot(d, e, id) && id in e.meta
    ensures LeavesNoHalf(e, id, f, k) <==> LeavesNoHalf(d, id, f, k)
  {
  }

  lemma SameOnward(d: Disk, e: Disk, t: seq<Disk>, id: Id)
    requires SameSnapshot(d, e, id) && id in e.meta
    ensures TraceKeeps(d, t, id) <==> TraceKeeps(e, t, id)
  {
  }

  lemma KeepsConcat(d: Disk, a: seq<Disk>, b: seq<Disk>, id: Id)
    ensures TraceKeeps(d, a + b, id) <==> TraceKeeps(d, a, id) && TraceKeeps(d, b, id)
  {
    hide SameSnapshot;
    var all := a + b;
    if TraceKeeps(d, all, id) {
      assert forall k | 0 <= k < |a| :: a[k] == all[k];
      assert forall k | 0 <= k < |b| :: b[k] == all[|a| + k];
    }
  }

  lemma OpenKeeps(s: Store, op: Op, id: Id)
    requires Sound(s) && op.Open? && Legal(s, op) && IsSnapshot(s.disk, id)
    ensures TraceKeeps(s.disk, Trace(s, op), id)
  {
    hide CopyTrace, OnlyTouches, SameSnapshot, FindName;
    var d := s.disk;
    assert FreshId(s, op.id);
    match SnapshotFor(d, op.ref)
    case Some(snap) =>
      if ValidId(snap) && snap in d.meta {
        CopyKeeps(d, snap, op.id, BranchMeta(s, snap), op.f, id);
      }
    case None =>
      if ValidId(op.ref) && op.ref in d.meta {
        var e := SetMeta(d, op.ref, d.meta[op.ref].(workspace := s.workspace));
        TouchMeta(d, op.ref, d.meta[op.ref].(workspace := s.workspace));
        UntouchedIsSame(d, e, op.ref, id);
      }
  }

  lemma OtherKeeps(s: Store, op: Op, id: Id)
    requires Sound(s) && !op.Save? && !op.Open? && Legal(s, op) && IsSnapshot(s.disk, id)
    ensures TraceKeeps(s.disk, Trace(s, op), id)
  {
    assert op.Create? ==> FreshId(s, op.id);
  }

  // No operation changes a snapshot at any of its steps, apart from taking it away. There is one exception, and
  // exactly that one: a replace that cannot remove the old metadata but removes the transcript under it.
  lemma SnapshotsNeverChange(s: Store, op: Op, id: Id)
    requires Sound(s) && Legal(s, op) && IsSnapshot(s.disk, id)
    ensures TraceKeeps(s.disk, Trace(s, op), id)
      <==> (Replaces(s.disk, op) && FindName(s.disk, op.name).value == id ==> LeavesNoHalf(s.disk, id, op.f, 6))
  {
    hide Trace, TraceKeeps, FindName, LeavesNoHalf, IsSnapshot;
    if op.Save? {
      SaveKeeps(s, op, id);
    } else if op.Open? {
      OpenKeeps(s, op, id);
    } else {
      OtherKeeps(s, op, id);
    }
  }

  // ---- A replace always has a snapshot of its name ----

  lemma ReplaceAlwaysHasOne(s: Store, op: Op, n: nat)
    requires Sound(s) && op.Save? && Legal(s, op) && FindName(s.disk, op.name).Some? && n < |Trace(s, op)|
    ensures exists id :: Named(Trace(s, op)[n], id, op.name)
  {
    hide CopyTrace, RemoveTrace, OnlyTouches, FindName, Savable;
    var d, f := s.disk, op.f;
    var prior := FindName(d, op.name).value;
    SavableHasMetaIf(d, op.src);
    assert FreshId(s, op.id);
    assert Named(d, prior, op.name) && prior in s.used && prior != op.id;
    var m := SnapshotMeta(d, op.src, op.name);
    var copy := CopyTrace(d, op.src, op.id, m, f);
    if n < |copy| {
      CopyTouches(d, op.src, op.id, m, f, n);
      TouchedElsewhere(d, copy[n], op.id, prior);
      assert Named(Trace(s, op)[n], prior, op.name);
    } else {
      var rest := RemoveTrace(Last(copy), prior, f, 6);
      assert Trace(s, op)[n] == rest[n - |copy|];
      CopiesAreWhole(d, op.src, op.id, m, f, |copy| - 1);
      RemoveTouches(Last(copy), prior, f, 6, n - |copy|);
      TouchedElsewhere(Last(copy), rest[n - |copy|], prior, op.id);
      assert Named(Trace(s, op)[n], op.id, op.name);
    }
  }

  lemma SavableHasMetaIf(d: Disk, src: Id)
    ensures Savable(d, src) ==> src in d.meta
  {
  }

  lemma TouchedElsewhere(d: Disk, e: Disk, id: Id, other: Id)
    requires OnlyTouches(d, e, id) && other != id
    ensures other in e.meta <==> other in d.meta
    ensures other in d.meta ==> e.meta[other] == d.meta[other]
  {
  }

  // ---- Names ----

  ghost predicate UniqueNames(d: Disk) {
    forall a, b | IsSnapshot(d, a) && IsSnapshot(d, b) :: d.meta[a].name == d.meta[b].name ==> a == b
  }

  // The same snapshots under the same names.
  ghost predicate SameNames(d: Disk, e: Disk) {
    forall id ::
      (IsSnapshot(e, id) <==> IsSnapshot(d, id)) && (IsSnapshot(d, id) ==> e.meta[id].name == d.meta[id].name)
  }

  lemma UnnamedKeepsNames(d: Disk, e: Disk, id: Id)
    requires OnlyTouches(d, e, id) && !IsSnapshot(d, id) && !IsSnapshot(e, id)
    ensures SameNames(d, e)
  {
  }

  lemma SameNamesUnique(d: Disk, e: Disk)
    requires SameNames(d, e)
    ensures UniqueNames(e) <==> UniqueNames(d)
  {
  }

  // The last disk of a copy under no name, or one that failed, has the names there were.
  lemma CopyNames(d: Disk, src: Id, id: Id, m: Meta, f: Faults)
    requires src != id && id !in d.meta && id !in d.events
    ensures var e := Last(CopyTrace(d, src, id, m, f));
      && OnlyTouches(d, e, id) && (Copies(d, src, f) ==> id in e.meta && e.meta[id] == m)
      && (m.name == "" || !Copies(d, src, f) ==> SameNames(d, e))
  {
    hide CopyTrace, OnlyTouches, SameNames;
    var t := CopyTrace(d, src, id, m, f);
    CopyTouches(d, src, id, m, f, |t| - 1);
    CopiesAreWhole(d, src, id, m, f, |t| - 1);
    if m.name == "" || !Copies(d, src, f) {
      UnnamedKeepsNames(d, Last(t), id);
    }
  }

  lemma OtherNames(s: Store, op: Op)
    requires Sound(s) && !op.Save? && !op.Open? && Legal(s, op)
    ensures SameNames(s.disk, After(s, op).disk)
  {
    assert op.Create? ==> FreshId(s, op.id);
  }

  lemma OpenNames(s: Store, op: Op)
    requires Sound(s) && op.Open? && Legal(s, op)
    ensures SameNames(s.disk, After(s, op).disk)
  {
    hide CopyTrace, OnlyTouches, FindName;
    var d := s.disk;
    assert FreshId(s, op.id);
    match SnapshotFor(d, op.ref)
    case Some(snap) =>
      if ValidId(snap) && snap in d.meta {
        CopyNames(d, snap, op.id, BranchMeta(s, snap), op.f);
      }
    case None =>
  }

  lemma SaveNames(s: Store, op: Op)
    requires Sound(s) && op.Save? && Legal(s, op) && UniqueNames(s.disk)
    ensures UniqueNames(After(s, op).disk) <==> CleanReplace(s, op)
  {
    hide CopyTrace, RemoveTrace, OnlyTouches, FindName, Savable, SameNames;
    var d, f := s.disk, op.f;
    assert FreshId(s, op.id);
    SavableHasMetaIf(d, op.src);
    var found := FindName(d, op.name);
    if ValidName(op.name) && !(found.Some? && !op.replace) && Savable(d, op.src) {
      var m := SnapshotMeta(d, op.src, op.name);
      var e := Last(CopyTrace(d, op.src, op.id, m, f));
      CopyNames(d, op.src, op.id, m, f);
      if !Copies(d, op.src, f) {
        SameNamesUnique(d, e);
        assert After(s, op).disk == e;
      } else if found.None? {
        assert After(s, op).disk == e;
        AddedName(d, e, op.id, op.name);
      } else {
        ReplacedName(s, op, e);
      }
    }
  }

  lemma AddedName(d: Disk, e: Disk, id: Id, name: string)
    requires UniqueNames(d) && OnlyTouches(d, e, id) && id in e.meta && e.meta[id].name == name && id !in d.meta
    requires forall x :: !Named(d, x, name)
    ensures UniqueNames(e)
  {
    hide OnlyTouches;
    forall a, b | IsSnapshot(e, a) && IsSnapshot(e, b) && e.meta[a].name == e.meta[b].name ensures a == b {
      if a != id {
        TouchedElsewhere(d, e, id, a);
        assert !Named(d, a, name);
      }
      if b != id {
        TouchedElsewhere(d, e, id, b);
        assert !Named(d, b, name);
      }
    }
  }

  lemma ReplacedName(s: Store, op: Op, e: Disk)
    requires Sound(s) && op.Save? && Legal(s, op) && UniqueNames(s.disk) && Replaces(s.disk, op)
    requires e == Last(CopyTrace(s.disk, op.src, op.id, SnapshotMeta(s.disk, op.src, op.name), op.f))
    requires OnlyTouches(s.disk, e, op.id) && op.id in e.meta && e.meta[op.id].name == op.name
    ensures UniqueNames(After(s, op).disk) <==> op.f.ok(6)
  {
    hide CopyTrace, FindName, Savable;
    var d, f := s.disk, op.f;
    assert FreshId(s, op.id);
    var prior := FindName(d, op.name).value;
    var end := Last(RemoveTrace(e, prior, f, 6));
    assert After(s, op).disk == end;
    RemoveTouches(e, prior, f, 6, 2);
    assert IsSnapshot(d, prior) && prior != op.id;
    assert IsSnapshot(end, op.id) && end.meta[op.id].name == op.name;
    if f.ok(6) {
      forall a, b | IsSnapshot(end, a) && IsSnapshot(end, b) && end.meta[a].name == end.meta[b].name ensures a == b {
        assert a != prior && b != prior;
        assert a != op.id ==> IsSnapshot(d, a) && d.meta[a].name == end.meta[a].name;
        assert b != op.id ==> IsSnapshot(d, b) && d.meta[b].name == end.meta[b].name;
      }
    } else {
      assert IsSnapshot(end, prior) && end.meta[prior].name == op.name;
    }
  }

  // Names stay unique exactly when every replace manages to remove the metadata it replaces.
  lemma NamesStayUnique(s: Store, op: Op)
    requires Sound(s) && Legal(s, op) && UniqueNames(s.disk)
    ensures UniqueNames(After(s, op).disk) <==> CleanReplace(s, op)
  {
    hide UniqueNames, After, CleanReplace;
    if op.Save? {
      SaveNames(s, op);
    } else {
      if op.Open? {
        OpenNames(s, op);
      } else {
        OtherNames(s, op);
      }
      SameNamesUnique(s.disk, After(s, op).disk);
      assert CleanReplace(s, op) by { OnlySavesReplace(s, op); }
    }
  }

  lemma OnlySavesReplace(s: Store, op: Op)
    requires !op.Save?
    ensures CleanReplace(s, op)
  {
  }

  // ---- The invariant ----

  lemma TouchedKeys(d: Disk, e: Disk, id: Id, used: set<Id>)
    requires OnlyTouches(d, e, id) && id in used
    requires d.meta.Keys <= used && d.messages.Keys <= used && d.events.Keys <= used
    ensures e.meta.Keys <= used && e.messages.Keys <= used && e.events.Keys <= used
  {
  }

  lemma OtherSound(s: Store, op: Op)
    requires Sound(s) && !op.Save? && !op.Open? && Legal(s, op)
    ensures Sound(After(s, op))
  {
    assert op.Create? ==> FreshId(s, op.id);
  }

  lemma OpenSound(s: Store, op: Op)
    requires Sound(s) && op.Open? && Legal(s, op)
    ensures Sound(After(s, op))
  {
    hide CopyTrace, OnlyTouches, SameNames, FindName;
    var d := s.disk;
    assert FreshId(s, op.id);
    match SnapshotFor(d, op.ref)
    case Some(snap) =>
      if ValidId(snap) && snap in d.meta {
        var m := BranchMeta(s, snap);
        var e := Last(CopyTrace(d, snap, op.id, m, op.f));
        CopyNames(d, snap, op.id, m, op.f);
        TouchedKeys(d, e, op.id, s.used + {op.id});
        NamesSeen(d, e);
      }
    case None =>
  }

  lemma NamesSeen(d: Disk, e: Disk)
    requires SameNames(d, e)
    ensures forall id :: IsSnapshot(e, id) <==> IsSnapshot(d, id)
  {
  }

  // The disk a save ends with.
  lemma SaveEnds(s: Store, src: Id, name: string, replace: bool, id: Id, f: Faults)
    requires Sound(s) && FreshId(s, id)
    ensures var (d, found) := (s.disk, FindName(s.disk, name));
      After(s, Save(src, name, replace, id, f)) == Store(
        if !ValidName(name) || (found.Some? && !replace) || !Savable(d, src) then d
        else
          var copied := Last(CopyTrace(d, src, id, SnapshotMeta(d, src, name), f));
          if Copies(d, src, f) && found.Some? then Last(RemoveTrace(copied, found.value, f, 6)) else copied,
        s.active, s.workspace, s.used + {id})
  {
    hide CopyTrace, RemoveTrace, FindName, Copies;
    var found := FindName(s.disk, name);
    assert found.Some? ==> Named(s.disk, found.value, name) && found.value != id;
  }

  lemma SaveSound(s: Store, op: Op)
    requires Sound(s) && op.Save? && Legal(s, op)
    ensures Sound(After(s, op))
  {
    hide CopyTrace, RemoveTrace, OnlyTouches, FindName, Savable, SameNames;
    var d, f := s.disk, op.f;
    var used := s.used + {op.id};
    assert FreshId(s, op.id);
    SavableHasMetaIf(d, op.src);
    var found := FindName(d, op.name);
    if ValidName(op.name) && !(found.Some? && !op.replace) && Savable(d, op.src) {
      var m := SnapshotMeta(d, op.src, op.name);
      var e := Last(CopyTrace(d, op.src, op.id, m, f));
      CopyNames(d, op.src, op.id, m, f);
      TouchedKeys(d, e, op.id, used);
      if s.active.Some? {
        UntouchedIsSame(d, e, op.id, s.active.value.id);
      }
      if Replaces(d, op) {
        var end := Last(RemoveTrace(e, found.value, f, 6));
        RemoveTouches(e, found.value, f, 6, |RemoveTrace(e, found.value, f, 6)| - 1);
        TouchedKeys(e, end, found.value, used);
        if s.active.Some? {
          UntouchedIsSame(e, end, found.value, s.active.value.id);
        }
        assert After(s, op).disk == end;
      } else {
        assert After(s, op).disk == e;
      }
    }
  }

  lemma StaysSound(s: Store, op: Op)
    requires Sound(s) && Legal(s, op)
    ensures Sound(After(s, op))
  {
    hide Sound, After, Legal;
    if op.Save? {
      SaveSound(s, op);
    } else if op.Open? {
      OpenSound(s, op);
    } else {
      OtherSound(s, op);
    }
  }

  // ---- Whole runs ----

  // An ID that was handed out and is not there, nor being continued.
  predicate Gone(s: Store, id: Id) {
    id in s.used && id !in s.disk.meta && (s.active.Some? ==> s.active.value.id != id)
  }

  lemma OtherGone(s: Store, op: Op, id: Id)
    requires Sound(s) && !op.Save? && !op.Open? && Legal(s, op) && Gone(s, id)
    ensures Gone(After(s, op), id)
  {
    assert op.Create? ==> FreshId(s, op.id);
  }

  lemma CopyGone(d: Disk, src: Id, target: Id, m: Meta, f: Faults, id: Id)
    requires src != target && id != target && id !in d.meta
    ensures id !in Last(CopyTrace(d, src, target, m, f)).meta
  {
    hide CopyTrace, OnlyTouches;
    var t := CopyTrace(d, src, target, m, f);
    CopyTouches(d, src, target, m, f, |t| - 1);
    TouchedElsewhere(d, Last(t), target, id);
  }

  lemma SaveGone(s: Store, op: Op, id: Id)
    requires Sound(s) && op.Save? && Legal(s, op) && Gone(s, id)
    ensures Gone(After(s, op), id)
  {
    hide CopyTrace, RemoveTrace, FindName, Savable;
    var d, f := s.disk, op.f;
    assert FreshId(s, op.id);
    SavableHasMetaIf(d, op.src);
    var found := FindName(d, op.name);
    if ValidName(op.name) && !(found.Some? && !op.replace) && Savable(d, op.src) {
      var m := SnapshotMeta(d, op.src, op.name);
      CopyGone(d, op.src, op.id, m, f, id);
      var e := Last(CopyTrace(d, op.src, op.id, m, f));
      if Replaces(d, op) {
        RemoveTouches(e, found.value, f, 6, |RemoveTrace(e, found.value, f, 6)| - 1);
        assert After(s, op).disk == Last(RemoveTrace(e, found.value, f, 6));
      } else {
        assert After(s, op).disk == e;
      }
    }
  }

  lemma OpenGone(s: Store, op: Op, id: Id)
    requires Sound(s) && op.Open? && Legal(s, op) && Gone(s, id)
    ensures Gone(After(s, op), id)
  {
    hide CopyTrace, FindName;
    var d := s.disk;
    assert FreshId(s, op.id);
    match SnapshotFor(d, op.ref)
    case Some(snap) =>
      if ValidId(snap) && snap in d.meta {
        CopyGone(d, snap, op.id, BranchMeta(s, snap), op.f, id);
      }
    case None =>
  }

  // An ID that is gone never comes back.
  lemma GoneStays(s: Store, op: Op, id: Id)
    requires Sound(s) && Legal(s, op) && Gone(s, id)
    ensures Gone(After(s, op), id)
  {
    hide Sound, After, Legal, Gone;
    if op.Save? {
      SaveGone(s, op, id);
    } else if op.Open? {
      OpenGone(s, op, id);
    } else {
      OtherGone(s, op, id);
    }
  }

  // Every replace of the run removes the metadata it replaces.
  ghost predicate AllClean(s: Store, ops: seq<Op>) {
    forall i | 0 <= i < |ops| :: CleanReplace(Run(s, ops[..i]), ops[i])
  }

  lemma PrefixLegal(s: Store, ops: seq<Op>)
    requires AllLegal(s, ops) && AllClean(s, ops) && ops != []
    ensures AllLegal(s, ops[..|ops| - 1]) && AllClean(s, ops[..|ops| - 1])
    ensures Legal(Run(s, ops[..|ops| - 1]), ops[|ops| - 1]) && CleanReplace(Run(s, ops[..|ops| - 1]), ops[|ops| - 1])
  {
    hide Run, Legal, CleanReplace;
    var before := ops[..|ops| - 1];
    forall i | 0 <= i < |before| ensures before[..i] == ops[..i] && before[i] == ops[i] {
    }
  }

  lemma {:induction false} RunsStaySound(s: Store, ops: seq<Op>)
    requires Sound(s) && AllLegal(s, ops) && AllClean(s, ops)
    ensures Sound(Run(s, ops)) && (UniqueNames(s.disk) ==> UniqueNames(Run(s, ops).disk))
  {
    hide Sound, After, AllLegal, AllClean, UniqueNames, CleanReplace, Legal;
    if ops != [] {
      PrefixLegal(s, ops);
      RunsStaySound(s, ops[..|ops| - 1]);
      var mid := Run(s, ops[..|ops| - 1]);
      StaysSound(mid, ops[|ops| - 1]);
      if UniqueNames(s.disk) {
        NamesStayUnique(mid, ops[|ops| - 1]);
      }
    } else {
      assert Run(s, ops) == s;
    }
  }

  lemma StepSame(s: Store, op: Op, id: Id)
    requires Sound(s) && Legal(s, op) && CleanReplace(s, op) && IsSnapshot(s.disk, id)
    ensures SameSnapshot(s.disk, After(s, op).disk, id)
    ensures id !in After(s, op).disk.meta ==> Gone(After(s, op), id)
  {
    hide Trace, SameSnapshot, FindName, Legal, ActiveAfter;
    SnapshotsNeverChange(s, op, id);
    SameItself(s.disk, id);
    StaysSound(s, op);
    if Trace(s, op) != [] {
      var t := Trace(s, op);
      assert After(s, op).disk == t[|t| - 1];
    }
    if id !in After(s, op).disk.meta {
      NotContinued(s, op, id);
    }
  }

  lemma SameItself(d: Disk, id: Id)
    requires id in d.meta
    ensures SameSnapshot(d, d, id)
  {
  }

  // What an operation makes active was active before, or is there afterwards.
  lemma NotContinued(s: Store, op: Op, id: Id)
    requires Sound(s) && Legal(s, op) && IsSnapshot(s.disk, id)
    ensures ActiveAfter(s, op).Some? ==> ActiveAfter(s, op).value.id != id
  {
    hide CopyTrace, FindName;
    assert op.Create? || op.Open? ==> FreshId(s, op.id);
  }

  // Over any run, a snapshot that is still there has the transcript and the name it was saved with.
  lemma {:induction false} SnapshotsSurviveRuns(s: Store, ops: seq<Op>, id: Id)
    requires Sound(s) && AllLegal(s, ops) && AllClean(s, ops) && IsSnapshot(s.disk, id)
    ensures SameSnapshot(s.disk, Run(s, ops).disk, id)
    ensures id !in Run(s, ops).disk.meta ==> Gone(Run(s, ops), id)
  {
    hide Sound, After, AllLegal, AllClean, CleanReplace, Legal, Gone;
    if ops == [] {
      assert Run(s, ops) == s;
      SameItself(s.disk, id);
    } else {
      PrefixLegal(s, ops);
      var before, op := ops[..|ops| - 1], ops[|ops| - 1];
      RunsStaySound(s, before);
      SnapshotsSurviveRuns(s, before, id);
      var mid := Run(s, before);
      if id in mid.disk.meta {
        StepSame(mid, op, id);
      } else {
        GoneStays(mid, op, id);
        GoneIsAway(After(mid, op), id);
      }
    }
  }

  lemma GoneIsAway(s: Store, id: Id)
    requires Gone(s, id)
    ensures id !in s.disk.meta
  {
  }
}
