/** The table of scheduled jobs, and how a rescan updates it (internal/server/scheduler.go). */
module CronEntries {
  import opened Results

  // A worker of a workspace.
  type Key = nat

  // What is scheduled of a worker; ok says whether its schedule parses, late whether it
  // wants missed runs made up for and there was one.
  datatype Info = Info(hash: string, cron: string, tz: string, ok: bool, late: bool)

  datatype Entry = Entry(id: nat, hash: string, cron: string, tz: string)

  // The scheduler's entries and cron's own jobs, by job ID; IDs from next on have not been given out.
  datatype Book = Book(entries: map<Key, Entry>, jobs: map<nat, Key>, next: nat)

  // Cron runs exactly one job for each worker entered, and none besides.
  predicate Matches(b: Book) {
    && (forall k | k in b.entries :: b.entries[k].id in b.jobs && b.jobs[b.entries[k].id] == k)
    && (forall i | i in b.jobs :: b.jobs[i] in b.entries && b.entries[b.jobs[i]].id == i && i < b.next)
  }

  predicate Current(e: Entry, info: Info) {
    e.hash == info.hash && e.cron == info.cron && e.tz == info.tz
  }

  predicate AppearsOnce(scan: seq<(Key, Info)>) {
    forall i, j | 0 <= i < j < |scan| :: scan[i].0 != scan[j].0
  }

  class CronTable {
    var entries: map<Key, Entry>
    var jobs: map<nat, Key>
    var next: nat

    ghost function View(): Book
      reads this
    {
      Book(entries, jobs, next)
    }

    constructor ()
      ensures Matches(View()) && View() == Book(map[], map[], 0)
    {
      entries, jobs, next := map[], map[], 0;
    }

    // Enters or updates a worker; one that is entered as it is keeps its job.
    method Register(k: Key, info: Info) returns (catchUp: bool)
      requires Matches(View())
      modifies this
      ensures Matches(View()) && next >= old(next)
      ensures forall x | x != k ::
                (x in entries <==> x in old(entries)) && (x in entries ==> entries[x] == old(entries)[x])
      ensures Registered(old(entries), entries, k, info)
      ensures old(k in entries && Current(entries[k], info)) ==> View() == old(View())
      ensures k in entries && !old(k in entries && Current(entries[k], info)) ==> entries[k].id >= old(next)
      ensures catchUp <==> info.ok && info.late && old(k !in entries)
    {
      var had := k in entries;
      if had && Current(entries[k], info) {
        return false;
      }
      if had {
        jobs := jobs - {entries[k].id};
      }
      if !info.ok {
        entries := entries - {k};
        return false;
      }
      jobs := jobs[next := k];
      entries := entries[k := Entry(next, info.hash, info.cron, info.tz)];
      next := next + 1;
      catchUp := !had && info.late;
    }

    // Registers what a scan found, and drops the rest.
    method Rescan(scan: seq<(Key, Info)>)
      requires Matches(View()) && AppearsOnce(scan)
      modifies this
      ensures Matches(View())
      ensures forall j | 0 <= j < |scan| :: Registered(old(entries), entries, scan[j].0, scan[j].1)
      ensures forall k | k in entries :: exists j | 0 <= j < |scan| :: scan[j].0 == k
    {
      hide Registered;
      var seen: set<Key> := {};
      for i := 0 to |scan|
        invariant Matches(View())
        invariant forall k :: k in seen <==> exists j | 0 <= j < i :: scan[j].0 == k
        invariant forall k | k !in seen ::
                    (k in entries <==> k in old(entries)) && (k in entries ==> entries[k] == old(entries)[k])
        invariant forall j | 0 <= j < i :: Registered(old(entries), entries, scan[j].0, scan[j].1)
      {
        var (k, info) := scan[i];
        assert k !in seen;
        seen := seen + {k};
        ghost var before := entries;
        var late := Register(k, info);
        SameBefore(before, old(entries), entries, k, info);
        forall j | 0 <= j < i ensures Registered(old(entries), entries, scan[j].0, scan[j].1) {
          SameAfter(old(entries), before, entries, scan[j].0, scan[j].1);
        }
      }
      ghost var registered := entries;
      DropUnseen(seen);
      forall j | 0 <= j < |scan| ensures Registered(old(entries), entries, scan[j].0, scan[j].1) {
        assert scan[j].0 in seen;
        SameAfter(old(entries), registered, entries, scan[j].0, scan[j].1);
      }
    }

    method DropUnseen(seen: set<Key>)
      requires Matches(View())
      modifies this
      ensures Matches(View())
      ensures forall k :: k in entries <==> k in seen && k in old(entries)
      ensures forall k | k in entries :: entries[k] == old(entries)[k]
    {
      hide Matches;
      var left := entries.Keys - seen;
      while left != {}
        invariant Matches(View())
        invariant left <= entries.Keys && left !! seen
        invariant forall k :: k in entries <==> k in old(entries) && (k in seen || k in left)
        invariant forall k | k in entries :: entries[k] == old(entries)[k]
        decreases |left|
      {
        var k :| k in left;
        Forget(k);
        left := left - {k};
      }
    }

    method Forget(k: Key)
      requires Matches(View()) && k in entries
      modifies this
      ensures Matches(View()) && entries == old(entries) - {k} && next == old(next)
    {
      jobs := jobs - {entries[k].id};
      entries := entries - {k};
    }
  }

  // What registering left of one worker.
  predicate Registered(before: map<Key, Entry>, after: map<Key, Entry>, k: Key, info: Info) {
    var kept := k in before && Current(before[k], info);
    && (k in after <==> info.ok || kept)
    && (k in after ==> Current(after[k], info))
    && (kept ==> after[k] == before[k])
  }

  // A worker whose schedule is entered as it was found keeps its entry; any other gets one with just what was found,
  // unless its schedule does not parse, and then it has none.
  lemma RegisteredMeans(before: map<Key, Entry>, after: map<Key, Entry>, k: Key, info: Info)
    ensures Registered(before, after, k, info) <==>
            if k in before && before[k] == Entry(before[k].id, info.hash, info.cron, info.tz) then
              k in after && after[k] == before[k]
            else if info.ok then k in after && after[k] == Entry(after[k].id, info.hash, info.cron, info.tz)
            else k !in after
  {
  }

  // There is one job for each worker with an entry, it is the one the entry names, and there are no others.
  lemma MatchesMeans(b: Book)
    requires Matches(b)
    ensures forall k :: k in b.entries <==> exists i :: i in b.jobs && b.jobs[i] == k
    ensures forall i, j | i in b.jobs && j in b.jobs :: b.jobs[i] == b.jobs[j] ==> i == j
    ensures forall i | i in b.jobs :: i < b.next && b.entries[b.jobs[i]].id == i
  {
    forall k | k in b.entries ensures exists i :: i in b.jobs && b.jobs[i] == k {
      assert b.jobs[b.entries[k].id] == k;
    }
  }

  lemma SameBefore(before: map<Key, Entry>, before': map<Key, Entry>, after: map<Key, Entry>, k: Key, info: Info)
    requires (k in before <==> k in before') && (k in before ==> before[k] == before'[k])
    ensures Registered(before, after, k, info) <==> Registered(before', after, k, info)
  {
  }

  lemma SameAfter(before: map<Key, Entry>, after: map<Key, Entry>, after': map<Key, Entry>, k: Key, info: Info)
    requires (k in after <==> k in after') && (k in after ==> after[k] == after'[k])
    ensures Registered(before, after, k, info) <==> Registered(before, after', k, info)
  {
  }
}
