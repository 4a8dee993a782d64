/** Saved sessions and their snapshots on disk (internal/session/session.go, snapshot.go), one file step at a time. */
module SessionStore {
  import opened Results

  type Id = string

  datatype Message = Message(role: string, content: string)

  // A session's metadata file; name is that of a snapshot, "" for a session that can be continued.
  datatype Meta = Meta(title: string, workspace: string, name: string, from: string, lastTurn: nat)

  // The three files of each session, by its ID. Only a session with a metadata file can be seen.
  datatype Disk = Disk(meta: map<Id, Meta>, messages: map<Id, seq<Message>>, events: map<Id, seq<nat>>)

  datatype Active = Active(id: Id, meta: Meta, messages: seq<Message>)

  // used, which the program does not keep, holds every ID ever handed out.
  datatype Store = Store(disk: Disk, active: Option<Active>, workspace: string, used: set<Id>)

  // Which file steps of an operation succeed, and how many records a copy that fails leaves behind.
  datatype Faults = Faults(ok: nat -> bool, cut: nat -> nat)

  datatype Op =
    | Create(id: Id, title: string, f: Faults)
    | AddMessage(m: Message, title: string, f: Faults) // title is what the message would be called by
    | AddEvent(ev: nat)
    | Rename(title: string, f: Faults)
    | SetLastTurn(id: Id, turn: nat, f: Faults)
    | Save(src: Id, name: string, replace: bool, id: Id, f: Faults)
    | Open(ref: string, id: Id, f: Faults)

  // ---- Names and IDs ----

  predicate IsIdChar(c: char) {
    'A' <= c <= 'Z' || 'a' <= c <= 'z' || '0' <= c <= '9' || c == '.' || c == '_' || c == '-'
  }

  predicate ValidId(id: string) {
    0 < |id| <= 128 && id[0] !in "._-" && forall i | 0 <= i < |id| :: IsIdChar(id[i])
  }

  predicate ValidName(name: string) {
    ValidId(name) && !("session-" <= name) && name != "latest"
  }

  // An ID as NewSessionID makes them, never handed out before.
  predicate FreshId(s: Store, id: Id) {
    ValidId(id) && "session-" <= id && id !in s.used
  }

  predicate IsSnapshot(d: Disk, id: Id) {
    id in d.meta && d.meta[id].name != ""
  }

  predicate Named(d: Disk, id: Id, name: string) {
    id in d.meta && d.meta[id].name == name
  }

  // A snapshot of that name, if there is one.
  ghost function FindName(d: Disk, name: string): (r: Option<Id>)
    ensures r.Some? ==> Named(d, r.value, name)
    ensures r.None? ==> forall id :: !Named(d, id, name)
  {
    if exists id :: Named(d, id, name) then var id :| Named(d, id, name); Some(id) else None
  }

  function MessagesOf(d: Disk, id: Id): seq<Message> {
    if id in d.messages then d.messages[id] else []
  }

  function EventsOf(d: Disk, id: Id): seq<nat> {
    if id in d.events then d.events[id] else []
  }

  // ---- File steps ----

  function SetMeta(d: Disk, id: Id, m: Meta): Disk { d.(meta := d.meta[id := m]) }

  function SetMessages(d: Disk, id: Id, ms: seq<Message>): Disk { d.(messages := d.messages[id := ms]) }

  function SetEvents(d: Disk, id: Id, es: seq<nat>): Disk { d.(events := d.events[id := es]) }

  function Part<T>(s: seq<T>, n: nat): seq<T> {
    if n <= |s| then s[..n] else s
  }

  function Last(trace: seq<Disk>): Disk
    requires trace != []
  {
    trace[|trace| - 1]
  }

  // removeLocked: the metadata first, each removal on its own; k is the number of its first file step.
  function RemoveTrace(d: Disk, id: Id, f: Faults, k: nat): (t: seq<Disk>)
    ensures t != []
  {
    var d1 := if f.ok(k) then d.(meta := d.meta - {id}) else d;
    var d2 := if f.ok(k + 1) then d1.(messages := d1.messages - {id}) else d1;
    var d3 := if f.ok(k + 2) then d2.(events := d2.events - {id}) else d2;
    [d1, d2, d3]
  }

  predicate Copies(d: Disk, src: Id, f: Faults) {
    f.ok(0) && (src in d.events ==> f.ok(1)) && f.ok(2)
  }

  // copyLocked: messages, then the event log if there is one, then the metadata; what was written goes on a failure.
  function CopyTrace(d: Disk, src: Id, id: Id, m: Meta, f: Faults): (t: seq<Disk>)
    ensures t != []
  {
    var ms, es := MessagesOf(d, src), EventsOf(d, src);
    if !f.ok(0) then
      var d0 := SetMessages(d, id, Part(ms, f.cut(0)));
      [d0] + RemoveTrace(d0, id, f, 3)
    else
      var d1 := SetMessages(d, id, ms);
      if src in d.events && !f.ok(1) then
        var d2 := SetEvents(d1, id, Part(es, f.cut(1)));
        [d1, d2] + RemoveTrace(d2, id, f, 3)
      else
        var d2 := if src in d.events then SetEvents(d1, id, es) else d1;
        if !f.ok(2) then [d1, d2] + RemoveTrace(d2, id, f, 3)
        else [d1, d2, SetMeta(d2, id, m)]
  }

  // ---- Operations ----

  predicate Savable(d: Disk, src: Id) {
    ValidId(src) && src in d.meta && (MessagesOf(d, src) != [] || EventsOf(d, src) != [])
  }

  function SnapshotMeta(d: Disk, src: Id, name: string): Meta
    requires src in d.meta
  {
    Meta(d.meta[src].title, d.meta[src].workspace, name, src, 0)
  }

  // Snapshot: the disks it goes through.
  ghost function SaveTrace(d: Disk, src: Id, name: string, replace: bool, id: Id, f: Faults): seq<Disk> {
    var found := FindName(d, name);
    if !ValidName(name) || (found.Some? && !replace) || !Savable(d, src) then []
    else
      var copy := CopyTrace(d, src, id, SnapshotMeta(d, src, name), f);
      if Copies(d, src, f) && found.Some? && found.value != id then copy + RemoveTrace(Last(copy), found.value, f, 6)
      else copy
  }

  // The snapshot a reference names or is.
  ghost function SnapshotFor(d: Disk, ref: string): Option<Id> {
    if ValidName(ref) && FindName(d, ref).Some? then FindName(d, ref)
    else if ValidId(ref) && IsSnapshot(d, ref) then Some(ref)
    else None
  }

  function BranchMeta(s: Store, src: Id): Meta
    requires src in s.disk.meta
  {
    var m := s.disk.meta[src];
    Meta(m.title, if s.workspace == "" then m.workspace else s.workspace, "", src, 0)
  }

  // Load adopts a session that belongs to no workspace.
  predicate Adopts(s: Store, id: Id)
    requires id in s.disk.meta
  {
    s.disk.meta[id].workspace == "" && s.workspace != ""
  }

  ghost function OpenTrace(s: Store, ref: string, id: Id, f: Faults): seq<Disk> {
    var d := s.disk;
    match SnapshotFor(d, ref)
    case Some(snap) => if ValidId(snap) && snap in d.meta then CopyTrace(d, snap, id, BranchMeta(s, snap), f) else []
    case None =>
      if ValidId(ref) && ref in d.meta && Adopts(s, ref) && f.ok(0)
      then [SetMeta(d, ref, d.meta[ref].(workspace := s.workspace))]
      else []
  }

  ghost function Opened(s: Store, ref: string, id: Id, f: Faults): Option<Active> {
    var d := s.disk;
    match SnapshotFor(d, ref)
    case Some(snap) =>
      if ValidId(snap) && snap in d.meta && Copies(d, snap, f)
      then Some(Active(id, BranchMeta(s, snap), MessagesOf(d, snap)))
      else s.active
    case None =>
      if !ValidId(ref) || ref !in d.meta || (Adopts(s, ref) && !f.ok(0)) then s.active
      else
        var m := if Adopts(s, ref) then d.meta[ref].(workspace := s.workspace) else d.meta[ref];
        Some(Active(ref, m, MessagesOf(d, ref)))
  }

  // The disks an operation goes through, and the active session it leaves.
  ghost function Trace(s: Store, op: Op): seq<Disk> {
    var d := s.disk;
    match op
    case Create(id, title, f) => if f.ok(0) then [SetMeta(d, id, Meta(title, s.workspace, "", "", 0))] else []
    case AddMessage(m, title, f) =>
      if s.active.None? || !f.ok(0) then []
      else
        var d1 := SetMessages(d, s.active.value.id, MessagesOf(d, s.active.value.id) + [m]);
        if f.ok(1) then [d1, SetMeta(d1, s.active.value.id, Titled(s.active.value.meta, m, title))] else [d1]
    case AddEvent(ev) =>
      if s.active.None? then [] else [SetEvents(d, s.active.value.id, EventsOf(d, s.active.value.id) + [ev])]
    case Rename(title, f) =>
      if s.active.None? || title == "" || !f.ok(0) then []
      else [SetMeta(d, s.active.value.id, s.active.value.meta.(title := title))]
    case SetLastTurn(id, turn, f) =>
      if !ValidId(id) || !f.ok(0) then []
      else if s.active.Some? && s.active.value.id == id then [SetMeta(d, id, s.active.value.meta.(lastTurn := turn))]
      else if id in d.meta then [SetMeta(d, id, d.meta[id].(lastTurn := turn))]
      else []
    case Save(src, name, replace, id, f) => SaveTrace(d, src, name, replace, id, f)
    case Open(ref, id, f) => OpenTrace(s, ref, id, f)
  }

  // The first message of the user names a session without a title.
  function Titled(m: Meta, msg: Message, title: string): Meta {
    if m.title == "" && msg.role == "user" then m.(title := title) else m
  }

  ghost function ActiveAfter(s: Store, op: Op): Option<Active> {
    match op
    case Create(id, title, f) => if f.ok(0) then Some(Active(id, Meta(title, s.workspace, "", "", 0), [])) else s.active
    case AddMessage(m, title, f) =>
      if s.active.None? || !f.ok(0) then s.active
      else Some(Active(s.active.value.id, Titled(s.active.value.meta, m, title), s.active.value.messages + [m]))
    case AddEvent(ev) => s.active
    case Rename(title, f) =>
      if s.active.None? || title == "" || !f.ok(0) then s.active
      else Some(s.active.value.(meta := s.active.value.meta.(title := title)))
    case SetLastTurn(id, turn, f) =>
      if ValidId(id) && s.active.Some? && s.active.value.id == id
      then Some(s.active.value.(meta := s.active.value.meta.(lastTurn := turn)))
      else s.active
    case Save(_, _, _, _, _) => s.active
    case Open(ref, id, f) => Opened(s, ref, id, f)
  }

  function NewId(op: Op): set<Id> {
    match op
    case Create(id, _, _) => {id}
    case Save(_, _, _, id, _) => {id}
    case Open(_, id, _) => {id}
    case _ => {}
  }

  // Every operation that makes a session gives it an ID of its own.
  predicate Legal(s: Store, op: Op) {
    forall id | id in NewId(op) :: FreshId(s, id)
  }

  ghost function After(s: Store, op: Op): Store {
    var t := Trace(s, op);
    Store(if t == [] then s.disk else Last(t), ActiveAfter(s, op), s.workspace, s.used + NewId(op))
  }

  ghost function Run(s: Store, ops: seq<Op>): Store {
    if ops == [] then s else After(Run(s, ops[..|ops| - 1]), ops[|ops| - 1])
  }

  ghost predicate AllLegal(s: Store, ops: seq<Op>) {
    forall i | 0 <= i < |ops| :: Legal(Run(s, ops[..i]), ops[i])
  }

  // ---- The invariant ----

  // The session being continued is no snapshot, and every session's ID was handed out.
  predicate Sound(s: Store) {
    && s.disk.meta.Keys <= s.used && s.disk.messages.Keys <= s.used && s.disk.events.Keys <= s.used
    && (s.active.Some? ==>
          s.active.value.id in s.used && s.active.value.meta.name == "" && !IsSnapshot(s.disk, s.active.value.id))
  }

  // A snapshot is as it was, for as long as it is there at all.
  predicate SameSnapshot(d: Disk, e: Disk, id: Id) {
    id in e.meta ==>
      && id in d.meta && e.meta[id].name == d.meta[id].name
      && MessagesOf(e, id) == MessagesOf(d, id) && EventsOf(e, id) == EventsOf(d, id)
  }

  predicate TraceKeeps(d: Disk, t: seq<Disk>, id: Id) {
    forall k | 0 <= k < |t| :: SameSnapshot(d, t[k], id)
  }

  // The files of one session, all others left alone.
  ghost predicate OnlyTouches(d: Disk, e: Disk, id: Id) {
    forall x | x != id ::
      && (x in e.meta <==> x in d.meta) && (x in d.meta ==> e.meta[x] == d.meta[x])
      && MessagesOf(e, x) == MessagesOf(d, x) && EventsOf(e, x) == EventsOf(d, x)
      && (x in e.messages <==> x in d.messages) && (x in e.events <==> x in d.events)
  }
}
