/** The storage object of internal/session, its methods proved against the store's operations. */
module SessionStorage {
  import opened Results
  import opened SessionStore
  import opened SessionSnapshots

  class Storage {
    var meta: map<Id, Meta>
    var messages: map<Id, seq<Message>>
    var events: map<Id, seq<nat>>
    var active: Option<Active>
    var workspace: string
    ghost var used: set<Id>

    ghost function OnDisk(): Disk
      reads this
    {
      Disk(meta, messages, events)
    }

    ghost function View(): Store
      reads this
    {
      Store(OnDisk(), active, workspace, used)
    }

    constructor (workspace: string)
      ensures View() == Store(Disk(map[], map[], map[]), None, workspace, {}) && Sound(View()) &&
              UniqueNames(View().disk)
    {
      meta, messages, events := map[], map[], map[];
      active, this.workspace, used := None, workspace, {};
    }

    method CreateSession(id: Id, title: string, f: Faults) returns (ok: bool)
      modifies this
      ensures View() == After(old(View()), Op.Create(id, title, f)) && ok == f.ok(0)
    {
      used := used + {id};
      ok := f.ok(0);
      if ok {
        meta := meta[id := Meta(title, workspace, "", "", 0)];
        active := Some(Active(id, meta[id], []));
      }
    }

    method AddMessage(m: Message, title: string, f: Faults) returns (ok: bool)
      modifies this
      ensures View() == After(old(View()), Op.AddMessage(m, title, f))
      ensures ok ==> old(active).Some? && f.ok(0) && f.ok(1)
    {
      if active.None? || !f.ok(0) {
        return false;
      }
      var a := active.value;
      messages := messages[a.id := (if a.id in messages then messages[a.id] else []) + [m]];
      var named := if a.meta.title == "" && m.role == "user" then a.meta.(title := title) else a.meta;
      active := Some(Active(a.id, named, a.messages + [m]));
      ok := f.ok(1);
      if ok {
        meta := meta[a.id := named];
      }
    }

    method Rename(title: string, f: Faults) returns (ok: bool)
      modifies this
      ensures View() == After(old(View()), Op.Rename(title, f))
      ensures ok <==> title != "" && old(active).Some? && f.ok(0)
    {
      if title == "" || active.None? || !f.ok(0) {
        return false;
      }
      active := Some(active.value.(meta := active.value.meta.(title := title)));
      meta := meta[active.value.id := active.value.meta];
      return true;
    }

    method SetLastTurn(id: Id, turn: nat, f: Faults) returns (ok: bool)
      modifies this
      ensures View() == After(old(View()), Op.SetLastTurn(id, turn, f))
      ensures ok ==> ValidId(id) && id in meta && meta[id].lastTurn == turn
    {
      if !ValidId(id) {
        return false;
      }
      if active.Some? && active.value.id == id {
        active := Some(active.value.(meta := active.value.meta.(lastTurn := turn)));
        ok := f.ok(0);
        if ok {
          meta := meta[id := active.value.meta];
        }
        return;
      }
      if id !in meta {
        return false;
      }
      ok := f.ok(0);
      if ok {
        meta := meta[id := meta[id].(lastTurn := turn)];
      }
    }

    // The ID of a snapshot of that name.
    method FindByName(name: string) returns (r: Option<Id>)
      ensures r.Some? ==> Named(OnDisk(), r.value, name)
      ensures r.None? ==> forall id :: !Named(OnDisk(), id, name)
    {
      var left := meta.Keys;
      while left != {}
        invariant left <= meta.Keys
        invariant forall id | id in meta && id !in left :: meta[id].name != name
        decreases |left|
      {
        var id :| id in left;
        if meta[id].name == name {
          return Some(id);
        }
        left := left - {id};
      }
      return None;
    }

    method RemoveLocked(id: Id, f: Faults, k: nat)
      modifies this
      ensures OnDisk() == Last(RemoveTrace(old(OnDisk()), id, f, k))
      ensures active == old(active) && workspace == old(workspace) && used == old(used)
    {
      if f.ok(k) {
        meta := meta - {id};
      }
      if f.ok(k + 1) {
        messages := messages - {id};
      }
      if f.ok(k + 2) {
        events := events - {id};
      }
    }

    method CopyLocked(src: Id, id: Id, m: Meta, f: Faults) returns (ok: bool)
      modifies this
      ensures OnDisk() == Last(CopyTrace(old(OnDisk()), src, id, m, f)) && ok == Copies(old(OnDisk()), src, f)
      ensures active == old(active) && workspace == old(workspace) && used == old(used)
    {
      var ms := if src in messages then messages[src] else [];
      if !f.ok(0) {
        messages := messages[id := if f.cut(0) <= |ms| then ms[..f.cut(0)] else ms];
        RemoveLocked(id, f, 3);
        return false;
      }
      messages := messages[id := ms];
      if src in events {
        var es := events[src];
        if !f.ok(1) {
          events := events[id := if f.cut(1) <= |es| then es[..f.cut(1)] else es];
          RemoveLocked(id, f, 3);
          return false;
        }
        events := events[id := es];
      }
      if !f.ok(2) {
        RemoveLocked(id, f, 3);
        return false;
      }
      meta := meta[id := m];
      return true;
    }

    // The copy, and then the removal of the snapshot it replaces.
    method WriteSnapshot(src: Id, name: string, prior: Option<Id>, id: Id, f: Faults) returns (ok: bool)
      requires src in meta && src != id && prior != Some(id) && id !in meta && id !in events
      modifies this
      ensures ok == Copies(old(OnDisk()), src, f)
      ensures var copied := Last(CopyTrace(old(OnDisk()), src, id, SnapshotMeta(old(OnDisk()), src, name), f));
        OnDisk() == if ok && prior.Some? then Last(RemoveTrace(copied, prior.value, f, 6)) else copied
      ensures ok ==> Named(OnDisk(), id, name)
      ensures active == old(active) && workspace == old(workspace) && used == old(used)
    {
      hide CopyTrace, RemoveTrace, OnlyTouches, SameNames, Copies;
      ghost var before := OnDisk();
      var m := meta[src];
      ok := CopyLocked(src, id, Meta(m.title, m.workspace, name, src, 0), f);
      CopyNames(before, src, id, SnapshotMeta(before, src, name), f);
      if ok && prior.Some? {
        ghost var copied := OnDisk();
        RemoveLocked(prior.value, f, 6);
        RemoveTouches(copied, prior.value, f, 6, |RemoveTrace(copied, prior.value, f, 6)| - 1);
        TouchedElsewhere(copied, OnDisk(), prior.value, id);
      }
    }

    // Copies a session under a name. A name already taken refuses, or, with replace, loses its old snapshot afterwards.
    method Snapshot(src: Id, name: string, replace: bool, id: Id, f: Faults) returns (ok: bool)
      requires Sound(View()) && UniqueNames(OnDisk()) && FreshId(View(), id)
      modifies this
      ensures View() == After(old(View()), Op.Save(src, name, replace, id, f))
      ensures ok ==> Named(OnDisk(), id, name)
    {
      hide CopyTrace, RemoveTrace, FindName, Copies, UniqueNames, ValidName, ValidId;
      ghost var before := View();
      used := used + {id};
      var found: Option<Id> := None;
      if ValidName(name) {
        found := FindByName(name);
        NameIsNotEmpty(name);
        FindNameIs(OnDisk(), name, found);
      }
      var nothing := (src !in messages || messages[src] == []) && (src !in events || events[src] == []);
      SaveEnds(before, src, name, replace, id, f);
      if !ValidName(name) || (found.Some? && !replace) || !ValidId(src) || src !in meta || nothing {
        assert !ValidName(name) || (found.Some? && !replace) || !Savable(before.disk, src);
        return false;
      }
      assert Savable(before.disk, src);
      ok := WriteSnapshot(src, name, found, id, f);
    }

    // Makes a session active: the one of that ID, or a new copy of the snapshot the reference names or is.
    method Open(ref: string, id: Id, f: Faults) returns (ok: bool, branched: bool)
      requires Sound(View()) && UniqueNames(OnDisk()) && FreshId(View(), id)
      modifies this
      ensures View() == After(old(View()), Op.Open(ref, id, f))
      ensures ok ==>
                active.Some? && active.value.meta.name == "" && (branched ==> active.value.id == id) &&
                (!branched ==> active.value.id == ref)
    {
      hide CopyTrace;
      ghost var before := View();
      used := used + {id};
      var snap: Option<Id> := None;
      if ValidName(ref) {
        snap := FindByName(ref);
        FindNameIs(OnDisk(), ref, snap);
      }
      if snap.None? && ValidId(ref) && ref in meta && meta[ref].name != "" {
        snap := Some(ref);
      }
      assert snap == SnapshotFor(before.disk, ref);
      if snap.Some? {
        ok := Branch(snap.value, id, f);
        return ok, ok;
      }
      ok := Load(ref, f);
      return ok, false;
    }

    method Branch(src: Id, id: Id, f: Faults) returns (ok: bool)
      requires src != id && id !in meta && id !in events
      modifies this
      ensures ok == (ValidId(src) && old(src in meta) && Copies(old(OnDisk()), src, f))
      ensures OnDisk() == if ValidId(src) && old(src in meta)
        then Last(CopyTrace(old(OnDisk()), src, id, BranchMeta(old(View()), src), f))
        else old(OnDisk())
      ensures active ==
                if ok then Some(Active(id, BranchMeta(old(View()), src), MessagesOf(old(OnDisk()), src)))
                else old(active)
      ensures workspace == old(workspace) && used == old(used)
    {
      hide CopyTrace;
      if !ValidId(src) || src !in meta {
        return false;
      }
      var m := meta[src];
      var ms := if src in messages then messages[src] else [];
      var copy := Meta(m.title, if workspace == "" then m.workspace else workspace, "", src, 0);
      ok := CopyLocked(src, id, copy, f);
      if ok {
        active := Some(Active(id, copy, ms));
      }
    }

    method Load(id: Id, f: Faults) returns (ok: bool)
      modifies this
      ensures ok == (ValidId(id) && old(id in meta) && (Adopts(old(View()), id) ==> f.ok(0)))
      ensures OnDisk() == if ok && Adopts(old(View()), id)
        then SetMeta(old(OnDisk()), id, old(meta)[id].(workspace := workspace))
        else old(OnDisk())
      ensures active == if ok then Some(Active(id, meta[id], MessagesOf(old(OnDisk()), id))) else old(active)
      ensures workspace == old(workspace) && used == old(used)
    {
      if !ValidId(id) || id !in meta {
        return false;
      }
      var m := meta[id];
      if m.workspace == "" && workspace != "" {
        m := m.(workspace := workspace);
        if !f.ok(0) {
          return false;
        }
        meta := meta[id := m];
      }
      active := Some(Active(id, m, if id in messages then messages[id] else []));
      return true;
    }
  }

  lemma NameIsNotEmpty(name: string)
    requires ValidName(name)
    ensures name != ""
  {
  }

  // With unique names there is only one snapshot to find.
  lemma FindNameIs(d: Disk, name: string, r: Option<Id>)
    requires UniqueNames(d) && name != ""
    requires r.Some? ==> Named(d, r.value, name)
    requires r.None? ==> forall id :: !Named(d, id, name)
    ensures FindName(d, name) == r
  {
    if r.Some? {
      var found := FindName(d, name);
      assert IsSnapshot(d, r.value);
      assert found.Some? ==> IsSnapshot(d, found.value);
    }
  }
}
