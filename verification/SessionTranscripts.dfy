/** What becomes of a session's transcript over a run, and what saving and opening do, said of the disk itself. */
module SessionTranscripts {
  import opened Results
  import opened SessionStore
  import opened SessionSnapshots

  // ---- Saving and opening leave the other sessions alone ----

  predicate Untouched(d: Disk, e: Disk, x: Id) {
    && (x in e.meta <==> x in d.meta) && (x in d.meta ==> e.meta[x] == d.meta[x])
    && MessagesOf(e, x) == MessagesOf(d, x) && EventsOf(e, x) == EventsOf(d, x)
  }

  lemma TouchLeaves(d: Disk, e: Disk, id: Id, x: Id)
    requires OnlyTouches(d, e, id) && x != id
    ensures Untouched(d, e, x)
  {
  }

  lemma SaveLeavesOthers(s: Store, op: Op, x: Id)
    requires Sound(s) && Legal(s, op) && op.Save? && x != op.id
    requires Replaces(s.disk, op) ==> x != FindName(s.disk, op.name).value
    ensures Untouched(s.disk, After(s, op).disk, x)
  {
    hide CopyTrace, RemoveTrace, OnlyTouches, FindName, Savable, Copies, ValidName;
    var d, f := s.disk, op.f;
    assert FreshId(s, op.id);
    SavableHasMetaIf(d, op.src);
    var found := FindName(d, op.name);
    if ValidName(op.name) && !(found.Some? && !op.replace) && Savable(d, op.src) {
      var m := SnapshotMeta(d, op.src, op.name);
      var t := CopyTrace(d, op.src, op.id, m, f);
      CopyTouches(d, op.src, op.id, m, f, |t| - 1);
      TouchLeaves(d, Last(t), op.id, x);
      if Replaces(d, op) {
        var r := RemoveTrace(Last(t), found.value, f, 6);
        RemoveTouches(Last(t), found.value, f, 6, |r| - 1);
        TouchLeaves(Last(t), Last(r), found.value, x);
        assert After(s, op).disk == Last(r);
      } else {
        assert After(s, op).disk == Last(t);
      }
    }
  }

  lemma SaveLeavesSessions(s: Store, op: Op, x: Id)
    requires Sound(s) && Legal(s, op) && op.Save? && x in s.used && !IsSnapshot(s.disk, x)
    ensures Untouched(s.disk, After(s, op).disk, x)
  {
    hide After, FindName, Savable, Copies;
    assert FreshId(s, op.id);
    SaveLeavesOthers(s, op, x);
  }

  // Whether opening only gives a session without a workspace the storage's.
  lemma OpenLeavesOthers(s: Store, op: Op, x: Id)
    requires Sound(s) && Legal(s, op) && op.Open? && x in s.used
    ensures var (d, e) := (s.disk, After(s, op).disk);
      if SnapshotFor(d, op.ref).Some? || x != op.ref || op.ref !in d.meta then Untouched(d, e, x)
      else Untouched(d, e, x) || Untouched(SetMeta(d, x, d.meta[x].(workspace := s.workspace)), e, x)
  {
    hide CopyTrace, OnlyTouches, FindName;
    var d := s.disk;
    assert FreshId(s, op.id);
    match SnapshotFor(d, op.ref)
    case Some(snap) =>
      if ValidId(snap) && snap in d.meta {
        var t := CopyTrace(d, snap, op.id, BranchMeta(s, snap), op.f);
        CopyTouches(d, snap, op.id, BranchMeta(s, snap), op.f, |t| - 1);
        TouchLeaves(d, Last(t), op.id, x);
      }
    case None =>
  }

  // ---- Memory and disk ----

  // What is in memory of the session being continued is what is on disk.
  predicate InStep(s: Store) {
    s.active.Some? ==> MessagesOf(s.disk, s.active.value.id) == s.active.value.messages
  }

  lemma StepInStep(s: Store, op: Op)
    requires Sound(s) && Legal(s, op) && InStep(s)
    ensures InStep(After(s, op))
  {
    if op.Save? {
      hide Trace;
      if s.active.Some? {
        SaveLeavesSessions(s, op, s.active.value.id);
      }
    } else if op.Open? {
      OpenInStep(s, op);
    } else {
      assert op.Create? ==> FreshId(s, op.id);
    }
  }

  lemma OpenInStep(s: Store, op: Op)
    requires Sound(s) && Legal(s, op) && InStep(s) && op.Open?
    ensures InStep(After(s, op))
  {
    hide CopyTrace, FindName, Copies;
    var d := s.disk;
    assert FreshId(s, op.id);
    if s.active.Some? {
      OpenLeavesOthers(s, op, s.active.value.id);
    }
    match SnapshotFor(d, op.ref)
    case Some(snap) =>
      if ValidId(snap) && snap in d.meta {
        var t := CopyTrace(d, snap, op.id, BranchMeta(s, snap), op.f);
        CopiesAreWhole(d, snap, op.id, BranchMeta(s, snap), op.f, |t| - 1);
      }
    case None =>
  }

  lemma OneFewer(s: Store, ops: seq<Op>)
    requires AllLegal(s, ops) && ops != []
    ensures AllLegal(s, ops[..|ops| - 1]) && Legal(Run(s, ops[..|ops| - 1]), ops[|ops| - 1])
  {
    hide Run, Legal;
    var before := ops[..|ops| - 1];
    forall i | 0 <= i < |before| ensures before[..i] == ops[..i] && before[i] == ops[i] {
    }
  }

  // Over any run, whatever fails, what is in memory of the session being continued is what is on disk.
  lemma {:induction false} MemoryMatchesDisk(s: Store, ops: seq<Op>)
    requires Sound(s) && InStep(s) && AllLegal(s, ops)
    ensures Sound(Run(s, ops)) && InStep(Run(s, ops))
  {
    hide Sound, InStep, AllLegal, After, Legal;
    if ops != [] {
      OneFewer(s, ops);
      MemoryMatchesDisk(s, ops[..|ops| - 1]);
      StaysSound(Run(s, ops[..|ops| - 1]), ops[|ops| - 1]);
      StepInStep(Run(s, ops[..|ops| - 1]), ops[|ops| - 1]);
    }
  }

  // ---- Transcripts ----

  // What an operation adds to the transcript of a session: a message is added to the active one if it was written.
  function Adds(s: Store, op: Op, id: Id): seq<Message> {
    if op.AddMessage? && op.f.ok(0) && s.active.Some? && s.active.value.id == id then [op.m] else []
  }

  function AddsEvents(s: Store, op: Op, id: Id): seq<nat> {
    if op.AddEvent? && s.active.Some? && s.active.value.id == id then [op.ev] else []
  }

  ghost function Told(s: Store, ops: seq<Op>, id: Id): seq<Message> {
    if ops == [] then []
    else Told(s, ops[..|ops| - 1], id) + Adds(Run(s, ops[..|ops| - 1]), ops[|ops| - 1], id)
  }

  ghost function ToldEvents(s: Store, ops: seq<Op>, id: Id): seq<nat> {
    if ops == [] then []
    else ToldEvents(s, ops[..|ops| - 1], id) + AddsEvents(Run(s, ops[..|ops| - 1]), ops[|ops| - 1], id)
  }

  lemma StepAdds(s: Store, op: Op, id: Id)
    requires Sound(s) && Legal(s, op) && id in s.used && !IsSnapshot(s.disk, id)
    ensures id in After(s, op).used && !IsSnapshot(After(s, op).disk, id)
    ensures MessagesOf(After(s, op).disk, id) == MessagesOf(s.disk, id) + Adds(s, op, id)
    ensures EventsOf(After(s, op).disk, id) == EventsOf(s.disk, id) + AddsEvents(s, op, id)
  {
    if op.Save? {
      SaveLeavesSessions(s, op, id);
      hide Trace;
    } else if op.Open? {
      OpenLeavesOthers(s, op, id);
      hide Trace;
    } else {
      assert op.Create? ==> FreshId(s, op.id);
    }
  }

  // Over any run a session's transcript is what it was and then exactly the messages added to it since, in order, and
  // so is its event log: nothing else that happens to any session touches them.
  lemma {:induction false} TranscriptIsWhatWasTold(s: Store, ops: seq<Op>, id: Id)
    requires Sound(s) && AllLegal(s, ops) && id in s.used && !IsSnapshot(s.disk, id)
    ensures Sound(Run(s, ops)) && id in Run(s, ops).used && !IsSnapshot(Run(s, ops).disk, id)
    ensures MessagesOf(Run(s, ops).disk, id) == MessagesOf(s.disk, id) + Told(s, ops, id)
    ensures EventsOf(Run(s, ops).disk, id) == EventsOf(s.disk, id) + ToldEvents(s, ops, id)
  {
    hide Sound, AllLegal, After, Legal, Adds, AddsEvents;
    if ops != [] {
      var before := ops[..|ops| - 1];
      OneFewer(s, ops);
      TranscriptIsWhatWasTold(s, before, id);
      StaysSound(Run(s, before), ops[|ops| - 1]);
      StepAdds(Run(s, before), ops[|ops| - 1], id);
    }
  }

  // ---- Metadata ----

  // No file step of the operation fails.
  ghost predicate Spared(op: Op) {
    !op.AddEvent? ==> forall k: nat :: op.f.ok(k)
  }

  // The metadata in memory of the session being continued is that on disk.
  predicate MetaInStep(s: Store) {
    s.active.Some? ==> s.active.value.id in s.disk.meta && s.disk.meta[s.active.value.id] == s.active.value.meta
  }

  lemma StepMetaInStep(s: Store, op: Op)
    requires Sound(s) && Legal(s, op) && MetaInStep(s) && Spared(op)
    ensures MetaInStep(After(s, op))
  {
    if op.Save? {
      hide Trace;
      if s.active.Some? {
        SaveLeavesSessions(s, op, s.active.value.id);
      }
    } else if op.Open? {
      OpenMetaInStep(s, op);
    } else {
      assert op.Create? ==> FreshId(s, op.id);
    }
  }

  lemma OpenMetaInStep(s: Store, op: Op)
    requires Sound(s) && Legal(s, op) && MetaInStep(s) && op.Open? && Spared(op)
    ensures MetaInStep(After(s, op))
  {
    hide CopyTrace, FindName;
    var d := s.disk;
    assert FreshId(s, op.id);
    match SnapshotFor(d, op.ref)
    case Some(snap) =>
      if ValidId(snap) && snap in d.meta {
        var t := CopyTrace(d, snap, op.id, BranchMeta(s, snap), op.f);
        CopiesAreWhole(d, snap, op.id, BranchMeta(s, snap), op.f, |t| - 1);
      } else if s.active.Some? {
        OpenLeavesOthers(s, op, s.active.value.id);
      }
    case None =>
  }

  // When no file step fails, what is in memory of the session being continued, its title, workspace, origin and last
  // turn, is what is on disk.
  lemma {:induction false} MetadataMatchesDisk(s: Store, ops: seq<Op>)
    requires Sound(s) && MetaInStep(s) && AllLegal(s, ops) && forall k | 0 <= k < |ops| :: Spared(ops[k])
    ensures Sound(Run(s, ops)) && MetaInStep(Run(s, ops))
  {
    hide Sound, MetaInStep, AllLegal, After, Legal, Spared;
    if ops != [] {
      OneFewer(s, ops);
      MetadataMatchesDisk(s, ops[..|ops| - 1]);
      StaysSound(Run(s, ops[..|ops| - 1]), ops[|ops| - 1]);
      StepMetaInStep(Run(s, ops[..|ops| - 1]), ops[|ops| - 1]);
    }
  }

  // What an operation does to the title and the last turn of the session being continued, and to nothing else of its
  // metadata: a new name titles it, and so does a prompt where it has no title yet.
  lemma EditsMean(s: Store, op: Op)
    requires s.active.Some? && !op.Create? && !op.Open?
    ensures ActiveAfter(s, op).Some? && ActiveAfter(s, op).value.id == s.active.value.id
    ensures var (id, a, b) := (s.active.value.id, s.active.value.meta, ActiveAfter(s, op).value.meta);
      var renames := op.Rename? && op.title != "" && op.f.ok(0);
      var prompts := op.AddMessage? && op.f.ok(0) && a.title == "" && op.m.role == "user";
      && b.title == (if renames || prompts then op.title else a.title)
      && b.lastTurn == (if op.SetLastTurn? && ValidId(op.id) && op.id == id then op.turn else a.lastTurn)
      && b.workspace == a.workspace && b.name == a.name && b.from == a.from
  {
  }

  lemma {:induction false} NoPromptNoTitle(s: Store, ops: seq<Op>)
    requires s.active.Some? && s.active.value.meta.title == ""
    requires forall k | 0 <= k < |ops| :: ops[k].AddMessage? && ops[k].m.role != "user"
    ensures Run(s, ops).active.Some? && Run(s, ops).active.value.meta.title == ""
  {
    hide Trace;
    if ops != [] {
      NoPromptNoTitle(s, ops[..|ops| - 1]);
      EditsMean(Run(s, ops[..|ops| - 1]), ops[|ops| - 1]);
    }
  }

  // A conversation without a title is called after its first prompt, and no later one changes that.
  lemma {:induction false} FirstPromptNames(s: Store, ops: seq<Op>, j: nat)
    requires s.active.Some? && s.active.value.meta.title == ""
    requires forall k | 0 <= k < |ops| :: ops[k].AddMessage?
    requires j < |ops| && ops[j].m.role == "user" && ops[j].f.ok(0) && ops[j].title != ""
    requires forall k | 0 <= k < j :: ops[k].m.role != "user"
    ensures Run(s, ops).active.Some? && Run(s, ops).active.value.meta.title == ops[j].title
  {
    hide Trace;
    var before := ops[..|ops| - 1];
    if j == |ops| - 1 {
      NoPromptNoTitle(s, before);
    } else {
      FirstPromptNames(s, before, j);
    }
    EditsMean(Run(s, before), ops[|ops| - 1]);
  }

  // ---- What saving and opening do ----

  // A save makes a snapshot exactly when the name is a valid one and free, or may be replaced, the source is there and
  // holds anything, and the copy succeeds. The snapshot has the source's transcript, title and workspace; the one it
  // replaces goes, and nothing else changes.
  lemma SaveMeans(s: Store, op: Op)
    requires Sound(s) && Legal(s, op) && op.Save? && UniqueNames(s.disk)
    ensures var (d, e, f) := (s.disk, After(s, op).disk, op.f);
      var saved := op.id in e.meta;
      && After(s, op).active == s.active
      && (saved <==>
          && ValidName(op.name) && (op.replace || forall x :: !Named(d, x, op.name))
          && ValidId(op.src) && op.src in d.meta && (MessagesOf(d, op.src) != [] || EventsOf(d, op.src) != [])
          && f.ok(0) && (op.src in d.events ==> f.ok(1)) && f.ok(2))
      && (saved ==>
          && e.meta[op.id] == Meta(d.meta[op.src].title, d.meta[op.src].workspace, op.name, op.src, 0)
          && MessagesOf(e, op.id) == MessagesOf(d, op.src) && EventsOf(e, op.id) == EventsOf(d, op.src))
      && (forall x | x != op.id && !(saved && Named(d, x, op.name)) :: Untouched(d, e, x))
      && (saved && f.ok(6) ==> forall x | Named(e, x, op.name) :: x == op.id)
  {
    hide FindName, RemoveTrace, OnlyTouches, Untouched, CopyTrace, ValidName, ValidId, UniqueNames;
    var (d, e, f) := (s.disk, After(s, op).disk, op.f);
    assert FreshId(s, op.id);
    var found := FindName(d, op.name);
    SaveEnds(s, op.src, op.name, op.replace, op.id, f);
    if ValidName(op.name) && !(found.Some? && !op.replace) && Savable(d, op.src) {
      var m := SnapshotMeta(d, op.src, op.name);
      var t := CopyTrace(d, op.src, op.id, m, f);
      CopiesAreWhole(d, op.src, op.id, m, f, |t| - 1);
      if Replaces(d, op) {
        var r := RemoveTrace(Last(t), found.value, f, 6);
        RemoveTouches(Last(t), found.value, f, 6, |r| - 1);
        TouchLeaves(Last(t), Last(r), found.value, op.id);
        UntouchedMeans(Last(t), Last(r), op.id);
      }
    }
    forall x | x != op.id && !(op.id in e.meta && Named(d, x, op.name)) ensures Untouched(d, e, x) {
      SaveLeavesOthers(s, op, x);
    }
    if op.id in e.meta && f.ok(6) {
      NamesStayUnique(s, op);
      NamedOnce(e, op.id, op.name);
    }
  }

  lemma UntouchedMeans(d: Disk, e: Disk, x: Id)
    requires Untouched(d, e, x)
    ensures (x in e.meta <==> x in d.meta) && (x in d.meta ==> e.meta[x] == d.meta[x])
    ensures MessagesOf(e, x) == MessagesOf(d, x) && EventsOf(e, x) == EventsOf(d, x)
  {
  }

  lemma NamedOnce(d: Disk, id: Id, name: string)
    requires UniqueNames(d) && Named(d, id, name) && ValidName(name)
    ensures forall x | Named(d, x, name) :: x == id
  {
    forall x | Named(d, x, name) ensures x == id {
      assert IsSnapshot(d, x) && IsSnapshot(d, id);
    }
  }

  // Out of a snapshot, given by its name or, where that names none, by its ID, comes another session with its
  // transcript and its title, in this workspace if there is one; everything else is left alone.
  lemma OpeningASnapshot(s: Store, op: Op, snap: Id)
    requires Sound(s) && Legal(s, op) && op.Open? && UniqueNames(s.disk) && IsSnapshot(s.disk, snap) && ValidId(snap)
    requires || (ValidName(op.ref) && Named(s.disk, snap, op.ref))
             || (op.ref == snap && (ValidName(op.ref) ==> forall x :: !Named(s.disk, x, op.ref)))
    ensures var (d, r, f) := (s.disk, After(s, op), op.f);
      var copied := f.ok(0) && (snap in d.events ==> f.ok(1)) && f.ok(2);
      && (op.id in r.disk.meta <==> copied)
      && (!copied ==> r.active == s.active)
      && (copied ==>
          && r.active.Some? && r.active.value.id == op.id && r.active.value.messages == MessagesOf(d, snap)
          && r.active.value.meta ==
             Meta(d.meta[snap].title, if s.workspace == "" then d.meta[snap].workspace else s.workspace, "", snap, 0)
          && r.disk.meta[op.id] == r.active.value.meta
          && MessagesOf(r.disk, op.id) == MessagesOf(d, snap) && EventsOf(r.disk, op.id) == EventsOf(d, snap))
      && (forall x | x != op.id :: Untouched(d, r.disk, x))
  {
    hide FindName, OnlyTouches, Untouched, CopyTrace, ValidName, ValidId, UniqueNames;
    var d, f := s.disk, op.f;
    assert FreshId(s, op.id);
    SnapshotIsFound(d, op.ref, snap);
    var t := CopyTrace(d, snap, op.id, BranchMeta(s, snap), f);
    CopiesAreWhole(d, snap, op.id, BranchMeta(s, snap), f, |t| - 1);
    CopyTouches(d, snap, op.id, BranchMeta(s, snap), f, |t| - 1);
    forall x | x != op.id ensures Untouched(d, After(s, op).disk, x) {
      TouchLeaves(d, Last(t), op.id, x);
    }
  }

  lemma SnapshotIsFound(d: Disk, ref: string, snap: Id)
    requires UniqueNames(d) && IsSnapshot(d, snap) && ValidId(snap)
    requires || (ValidName(ref) && Named(d, snap, ref))
             || (ref == snap && (ValidName(ref) ==> forall x :: !Named(d, x, ref)))
    ensures SnapshotFor(d, ref) == Some(snap)
  {
    hide UniqueNames, ValidName, ValidId;
    if ValidName(ref) && Named(d, snap, ref) {
      NamedOnce(d, snap, ref);
    }
  }

  // Opening a session that is no snapshot continues it where it is; only a session without a workspace changes, to
  // belong to the storage's. What is neither the ID of a session nor a snapshot's name opens nothing.
  lemma OpeningASession(s: Store, op: Op)
    requires op.Open? && !IsSnapshot(s.disk, op.ref)
    requires ValidName(op.ref) ==> forall x :: !Named(s.disk, x, op.ref)
    ensures var (d, r, id) := (s.disk, After(s, op), op.ref);
      if ValidId(id) && id in d.meta then
        var adopted := d.meta[id].workspace == "" && s.workspace != "";
        var m := if adopted then d.meta[id].(workspace := s.workspace) else d.meta[id];
        if adopted && !op.f.ok(0) then r.disk == d && r.active == s.active
        else
          && r.active == Some(Active(id, m, MessagesOf(d, id))) && id in r.disk.meta && r.disk.meta[id] == m
          && MessagesOf(r.disk, id) == MessagesOf(d, id) && EventsOf(r.disk, id) == EventsOf(d, id)
          && forall x | x != id :: Untouched(d, r.disk, x)
      else r.disk == d && r.active == s.active
  {
    hide FindName, ValidName, ValidId;
  }

  // ---- Names and IDs ----

  // An ASCII letter or digit, by its code.
  predicate IsAlphanumeric(c: char) {
    65 <= c as int < 91 || 97 <= c as int < 123 || 48 <= c as int < 58
  }

  // An ID starts with a letter or a digit and goes on with these, dots, underscores and dashes, up to 128 in all; so it
  // can be part of a path, where it is not hidden and holds nothing that means something.
  lemma IdsAreSafe(id: string)
    ensures ValidId(id) <==>
            && 1 <= |id| < 129 && IsAlphanumeric(id[0])
            && forall c | c in id :: IsAlphanumeric(c) || c == '.' || c == '_' || c == '-'
    ensures ValidId(id) ==> id != "." && id != ".." && forall c | c in id :: c !in "/\\ :*?\"'<>|~$&;\n\r\t"
  {
    if ValidId(id) {
      assert IsIdChar(id[0]);
      forall c | c in id ensures IsIdChar(c) {
        var i :| 0 <= i < |id| && id[i] == c;
      }
    } else if 1 <= |id| < 129 && IsAlphanumeric(id[0]) {
      assert id[0] !in "._-";
      var i :| 0 <= i < |id| && !IsIdChar(id[i]);
      assert id[i] in id;
    }
  }

  predicate AllDigits(s: string) { forall i | 0 <= i < |s| :: '0' <= s[i] <= '9' }

  predicate AllHex(s: string) { forall i | 0 <= i < |s| :: '0' <= s[i] <= '9' || 'a' <= s[i] <= 'f' }

  // Every ID made for a session is valid, and no snapshot can have it, or "latest", for a name; any other valid ID is
  // a name too, if it does not begin as the IDs of sessions do.
  lemma NamesAreNoIds(date: string, time: string, random: string)
    requires AllDigits(date) && |date| == 8 && AllDigits(time) && |time| == 6 && AllHex(random) && |random| == 8
    ensures var id := "session-" + date + "-" + time + "-" + random; ValidId(id) && !ValidName(id)
    ensures ValidId("latest") && !ValidName("latest")
    ensures forall name: string | ValidId(name) && !ValidName(name) :: name == "latest" || "session-" <= name
  {
    var id := "session-" + date + "-" + time + "-" + random;
    forall i | 0 <= i < |id| ensures IsIdChar(id[i]) {
      if 8 <= i < 16 {
        assert id[i] == date[i - 8];
      } else if 17 <= i < 23 {
        assert id[i] == time[i - 17];
      } else if 24 <= i {
        assert id[i] == random[i - 24];
      }
    }
    assert "session-" <= id;
  }
}
