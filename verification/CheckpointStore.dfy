/** The checkpoint store and the file operations that feed it, as functions on values
    (internal/tools/checkpoint.go, internal/tools/workspace.go). */
module CheckpointStore {
  import opened Results

  type Path = string

  datatype File = File(data: string, mode: nat)

  type Disk = map<Path, File>

  // A file's state before a change. TooLarge existed, but cannot be restored.
  datatype FileState = Absent | Present(data: string, mode: nat) | TooLarge

  // One recorded change. id tells recordings apart, as their addresses do; after is the
  // content the tools left (None: no file). SHA-256 is taken to be injective, so the content
  // stands for its hash.
  datatype Change = Change(id: nat, path: Path, before: FileState, after: Option<string>)

  datatype Turn = Turn(id: nat, title: string, changes: seq<Change>)

  // originals holds, for each path, the id of the change with its earliest snapshot.
  datatype Store = Store(turns: seq<Turn>, nextTurn: nat, nextChange: nat,
                         bytes: int, maxBytes: int, originals: map<Path, nat>)

  const DEFAULT_MAX_BYTES: int := 64 * 1024 * 1024

  function NewStore(maxBytes: int): Store {
    Store([], 0, 0, 0, if maxBytes <= 0 then DEFAULT_MAX_BYTES else maxBytes, map[])
  }

  // A store has the budget it is given, or 64 MiB.
  lemma BudgetIsGiven(maxBytes: int)
    ensures NewStore(maxBytes).maxBytes == if maxBytes > 0 then maxBytes else 67108864
    ensures NewStore(maxBytes).turns == [] && NewStore(maxBytes).bytes == 0
  {
  }

  function Size(st: FileState): nat {
    if st.Present? then |st.data| else 0
  }

  // ---- Turns ----

  function Last<T>(s: seq<T>): T
    requires s != []
  {
    s[|s| - 1]
  }

  function Front<T>(s: seq<T>): seq<T>
    requires s != []
  {
    s[..|s| - 1]
  }

  function Begin(s: Store, title: string): (r: Store)
    ensures r.turns != []
  {
    if s.turns != [] && Last(s.turns).changes == [] then
      s.(turns := Front(s.turns) + [Last(s.turns).(title := title)])
    else
      s.(nextTurn := s.nextTurn + 1, turns := s.turns + [Turn(s.nextTurn + 1, title, [])])
  }

  function Find(changes: seq<Change>, p: Path): (r: Option<nat>)
    ensures r.Some? ==> r.value < |changes| && changes[r.value].path == p
    ensures r.None? ==> forall k | 0 <= k < |changes| :: changes[k].path != p
  {
    if changes == [] then None
    else if changes[0].path == p then Some(0)
    else
      match Find(changes[1..], p)
      case None => None
      case Some(k) => Some(k + 1)
  }

  predicate Touches(t: Turn, p: Path) {
    Find(t.changes, p).Some?
  }

  function WithLast(s: Store, t: Turn): Store
    requires s.turns != []
  {
    s.(turns := Front(s.turns) + [t])
  }

  function TotalSize(changes: seq<Change>): nat {
    if changes == [] then 0 else Size(changes[0].before) + TotalSize(changes[1..])
  }

  function TurnsSize(turns: seq<Turn>): nat {
    if turns == [] then 0 else TotalSize(turns[0].changes) + TurnsSize(turns[1..])
  }

  // Takes a change out of originals, if its path's entry is that very change.
  function Forget(originals: map<Path, nat>, id: nat, p: Path): map<Path, nat> {
    if p in originals && originals[p] == id then originals - {p} else originals
  }

  function ForgetAll(originals: map<Path, nat>, changes: seq<Change>): map<Path, nat> {
    if changes == [] then originals else ForgetAll(Forget(originals, changes[0].id, changes[0].path), changes[1..])
  }

  // The store without its oldest turn.
  function Shorter(s: Store): Store
    requires s.turns != []
  {
    var oldest := s.turns[0].changes;
    s.(turns := s.turns[1..], bytes := s.bytes - TotalSize(oldest), originals := ForgetAll(s.originals, oldest))
  }

  // One turn after another goes, from the old end, until the bytes fit or a single turn is left.
  function Trim(s: Store): Store
    decreases |s.turns|
  {
    if s.bytes > s.maxBytes && |s.turns| > 1 then Trim(Shorter(s)) else s
  }

  lemma TrimStep(s: Store)
    ensures Trim(s) == if s.bytes > s.maxBytes && |s.turns| > 1 then Trim(Shorter(s)) else s
  {
    hide TotalSize, ForgetAll;
  }

  // Trimming keeps the newest turns, the current one among them, and ends within the budget
  // or with one turn.
  lemma {:induction false} TrimMeaning(s: Store)
    ensures var r := Trim(s);
            && |r.turns| <= |s.turns| && r.turns == s.turns[|s.turns| - |r.turns|..]
            && (s.turns != [] ==> r.turns != [])
            && (r.bytes <= r.maxBytes || |r.turns| <= 1)
            && r == s.(turns := r.turns, bytes := r.bytes, originals := r.originals)
    decreases |s.turns|
  {
    hide TotalSize, ForgetAll, Trim;
    TrimStep(s);
    if s.bytes > s.maxBytes && |s.turns| > 1 {
      TrimMeaning(Shorter(s));
      SuffixOfTail(s.turns, |Trim(Shorter(s)).turns|);
    }
  }

  lemma SuffixOfTail<T>(s: seq<T>, n: nat)
    requires n < |s|
    ensures s[1..][|s| - 1 - n..] == s[|s| - n..]
  {
  }

  // The current turn; a change outside any turn starts one.
  function EnsureTurn(s: Store): (r: Store)
    ensures r.turns != []
  {
    if s.turns != [] then s else Begin(s, "(no prompt)")
  }

  // Called before a file is modified. The second result says whether an entry was added.
  function Before(s: Store, p: Path, st: FileState): (Store, bool) {
    var c := EnsureTurn(s);
    var t := Last(c.turns);
    if Touches(t, p) then (c, false)
    else
      var ch := Change(c.nextChange, p, st, None);
      var recorded := WithLast(c, t.(changes := t.changes + [ch])).(
                        nextChange := c.nextChange + 1,
                        originals := if p in c.originals then c.originals else c.originals[p := ch.id],
                        bytes := c.bytes + Size(st));
      (Trim(recorded), true)
  }

  // Called when the change failed.
  function Discard(s: Store, p: Path): Store {
    if s.turns == [] then s
    else
      var t := Last(s.turns);
      match Find(t.changes, p)
      case None => s
      case Some(k) =>
        var ch := t.changes[k];
        WithLast(s, t.(changes := t.changes[..k] + t.changes[k + 1..])).(
          originals := Forget(s.originals, ch.id, ch.path),
          bytes := s.bytes - Size(ch.before))
  }

  // Called when the change succeeded.
  function After(s: Store, p: Path, content: Option<string>): Store {
    if s.turns == [] then s
    else
      var t := Last(s.turns);
      match Find(t.changes, p)
      case None => s
      case Some(k) => WithLast(s, t.(changes := t.changes[k := t.changes[k].(after := content)]))
  }

  // ---- The workspace ----

  // limit is the snapshot limit; createMode is what a created file's mode comes out as.
  datatype World = World(disk: Disk, store: Store, limit: nat, createMode: nat)

  const DEFAULT_MODE: nat := 420 // 0o644

  // What the environment does to one operation: whether the file can be read for its
  // snapshot, and how the primitive ends. A create that Leaves something fails once its file is
  // in place: whole when closing it failed, in part when both the write and its clean-up did.
  datatype Outcome = Succeeds | Fails | Leaves(left: string)

  datatype Env = Env(readable: bool, outcome: Outcome)

  function Content(d: Disk, p: Path): Option<string> {
    if p in d then Some(d[p].data) else None
  }

  function Snapshot(w: World, p: Path, readable: bool): FileState {
    if p !in w.disk then Absent
    else if |w.disk[p].data| > w.limit || !readable then TooLarge
    else Present(w.disk[p].data, w.disk[p].mode)
  }

  function Finish(w: World, added: bool, s: Store, p: Path, disk: Disk, ok: bool): World {
    if ok then w.(disk := disk, store := After(s, p, Content(disk, p)))
    else w.(disk := disk, store := if added then Discard(s, p) else s)
  }

  function WriteFileAtomic(w: World, p: Path, data: string, e: Env): (World, bool) {
    var (s, added) := Before(w.store, p, Snapshot(w, p, e.readable));
    var ok := e.outcome == Succeeds;
    var mode := if p in w.disk then w.disk[p].mode else DEFAULT_MODE;
    (Finish(w, added, s, p, if ok then w.disk[p := File(data, mode)] else w.disk, ok), ok)
  }

  function CreateExclusive(w: World, p: Path, data: string, e: Env): (World, bool) {
    var (s, added) := Before(w.store, p, Snapshot(w, p, e.readable));
    var ok := p !in w.disk && e.outcome == Succeeds;
    var disk :=
      if p in w.disk || e.outcome.Fails? then w.disk
      else w.disk[p := File(if e.outcome.Leaves? then e.outcome.left else data, w.createMode)];
    (Finish(w, added, s, p, disk, ok), ok)
  }

  function RemoveFile(w: World, p: Path, e: Env): (World, bool) {
    if p !in w.disk then (w, false)
    else
      var (s, added) := Before(w.store, p, Snapshot(w, p, e.readable));
      var ok := e.outcome == Succeeds;
      (Finish(w, added, s, p, if ok then w.disk - {p} else w.disk, ok), ok)
  }

  function Restore(d: Disk, p: Path, st: FileState): Disk {
    match st
    case Absent => d - {p}
    case Present(data, mode) => d[p := File(data, mode)]
    case TooLarge => d
  }

  // ---- Undo ----

  // The most recent turn with changes, or -1.
  function UndoIndex(turns: seq<Turn>): (r: int)
    ensures -1 <= r < |turns|
    ensures r >= 0 ==> turns[r].changes != []
    ensures forall i | r < i < |turns| :: turns[i].changes == []
  {
    if turns == [] then -1
    else if Last(turns).changes != [] then |turns| - 1
    else UndoIndex(Front(turns))
  }

  predicate Unrestorable(changes: seq<Change>) {
    exists k | 0 <= k < |changes| :: changes[k].before.TooLarge?
  }

  predicate Conflicts(d: Disk, changes: seq<Change>) {
    exists k | 0 <= k < |changes| :: !changes[k].before.TooLarge? && Content(d, changes[k].path) != changes[k].after
  }

  // Puts the files back, last change first; a restore of a path in `failing` has no effect.
  function RestoreChanges(d: Disk, changes: seq<Change>, failing: set<Path>): Disk
    decreases |changes|
  {
    if changes == [] then d
    else
      var ch := Last(changes);
      RestoreChanges(if ch.path in failing then d else Restore(d, ch.path, ch.before), Front(changes), failing)
  }

  predicate Restored(ch: Change, failing: set<Path>) {
    !ch.before.TooLarge? && ch.path !in failing
  }

  // The store without the changes that were put back.
  function Release(s: Store, changes: seq<Change>, failing: set<Path>): Store
    decreases |changes|
  {
    if changes == [] then s
    else
      var ch := Last(changes);
      Release(if Restored(ch, failing)
              then s.(bytes := s.bytes - Size(ch.before), originals := Forget(s.originals, ch.id, ch.path))
              else s,
              Front(changes), failing)
  }

  datatype UndoError = NothingToUndo | CannotRestore | Conflict

  function Without<T>(s: seq<T>, i: nat): seq<T>
    requires i < |s|
  {
    s[..i] + s[i + 1..]
  }

  function UndoRefusal(w: World, force: bool): Option<UndoError> {
    var idx := UndoIndex(w.store.turns);
    if idx < 0 then Some(NothingToUndo)
    else if !force && Unrestorable(w.store.turns[idx].changes) then Some(CannotRestore)
    else if !force && Conflicts(w.disk, w.store.turns[idx].changes) then Some(Conflict)
    else None
  }

  function Undo(w: World, force: bool, failing: set<Path>): (World, Option<UndoError>) {
    var refusal := UndoRefusal(w, force);
    if refusal.Some? then (w, refusal)
    else
      var idx := UndoIndex(w.store.turns);
      var changes := w.store.turns[idx].changes;
      var s := Release(w.store, changes, failing);
      (w.(disk := RestoreChanges(w.disk, changes, failing),
          store := s.(turns := Without(w.store.turns, idx))), None)
  }

  // ---- Runs ----

  datatype Op =
    | DoBegin(title: string)
    | DoWrite(path: Path, data: string, env: Env)
    | DoCreate(path: Path, data: string, env: Env)
    | DoRemove(path: Path, env: Env)
    | DoUndo(force: bool, failing: set<Path>)
    | Outside(path: Path, file: Option<File>) // an edit the tools did not make

  function Step(w: World, op: Op): World {
    match op
    case DoBegin(title) => w.(store := Begin(w.store, title))
    case DoWrite(p, data, e) => WriteFileAtomic(w, p, data, e).0
    case DoCreate(p, data, e) => CreateExclusive(w, p, data, e).0
    case DoRemove(p, e) => RemoveFile(w, p, e).0
    case DoUndo(force, failing) => Undo(w, force, failing).0
    case Outside(p, None) => w.(disk := w.disk - {p})
    case Outside(p, Some(f)) => w.(disk := w.disk[p := f])
  }

  function Run(w: World, ops: seq<Op>): World
    decreases |ops|
  {
    if ops == [] then w else Step(Run(w, Front(ops)), Last(ops))
  }

  lemma RunMore(w: World, ops: seq<Op>, op: Op)
    ensures Run(w, ops + [op]) == Step(Run(w, ops), op)
  {
    hide Step;
    assert Front(ops + [op]) == ops;
  }
}
