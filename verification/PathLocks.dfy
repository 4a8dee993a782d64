/** Reference-counted per-path locks taken in sorted order (internal/tools/pathlock.go), as the steps of any number
    of tools. */
module PathLocks {
  type Key = int

  // ---- The order locks are taken in ----

  predicate Ascending(keys: seq<Key>) {
    forall i, j | 0 <= i < j < |keys| :: keys[i] < keys[j]
  }

  function Insert(k: Key, keys: seq<Key>): seq<Key> {
    if keys == [] || k < keys[0] then [k] + keys
    else if k == keys[0] then keys
    else [keys[0]] + Insert(k, keys[1..])
  }

  // The paths sorted, each once.
  function Sorted(paths: seq<Key>): seq<Key> {
    if paths == [] then [] else Insert(paths[0], Sorted(paths[1..]))
  }

  lemma {:induction false} InsertKeeps(k: Key, keys: seq<Key>)
    requires Ascending(keys)
    ensures Ascending(Insert(k, keys))
    ensures forall x :: x in Insert(k, keys) <==> x == k || x in keys
  {
    if keys != [] && keys[0] < k {
      InsertKeeps(k, keys[1..]);
      assert forall x :: x in keys <==> x == keys[0] || x in keys[1..];
      var rest := Insert(k, keys[1..]);
      assert forall i | 0 <= i < |rest| :: rest[i] in rest;
    }
  }

  lemma {:induction false} SortedIs(paths: seq<Key>)
    ensures Ascending(Sorted(paths))
    ensures forall x :: x in Sorted(paths) <==> x in paths
  {
    if paths != [] {
      SortedIs(paths[1..]);
      InsertKeeps(paths[0], Sorted(paths[1..]));
      assert forall x :: x in paths <==> x == paths[0] || x in paths[1..];
    }
  }

  // ---- States ----

  // A lock object: the path it was made for, whether its one-slot channel is full, and its count.
  datatype Lock = Lock(key: Key, full: bool, refs: int)

  datatype Phase =
    | Acquiring          // about to acquire the next key, or working when there is none left
    | Waiting(l: nat)    // counted on l, in the select
    | Cancelled(l: nat)  // the context ended first; about to drop l
    | Releasing          // about to look up the last lock held
    | Draining(l: nat)   // looked up, about to empty its channel
    | Drained(l: nat)    // emptied, about to drop it
    | Done
    | Crashed            // looked up a path that is not in the map

  // The lock objects got are those of the first keys, in order.
  datatype Tool = Tool(keys: seq<Key>, got: seq<nat>, phase: Phase)

  datatype World = World(entries: map<Key, nat>, locks: seq<Lock>, tools: seq<Tool>)

  datatype Step =
    | Begin(paths: seq<Key>)
    | Enter(t: nat)
    | Take(t: nat)
    | Cancel(t: nat)
    | DropWait(t: nat)
    | Finish(t: nat)
    | LookUp(t: nat)
    | Drain(t: nat)
    | DropHeld(t: nat)
    | Return(t: nat)

  function Start(): World { World(map[], [], []) }

  predicate Enabled(w: World, s: Step) {
    s.Begin? ||
    (s.t < |w.tools| &&
     var tool := w.tools[s.t];
     match s
     case Enter(_) => tool.phase.Acquiring? && |tool.got| < |tool.keys|
     case Take(_) => tool.phase.Waiting? && tool.phase.l < |w.locks| && !w.locks[tool.phase.l].full
     case Cancel(_) => tool.phase.Waiting?
     case DropWait(_) => tool.phase.Cancelled?
     case Finish(_) => tool.phase.Acquiring? && |tool.got| >= |tool.keys|
     case LookUp(_) => tool.phase.Releasing? && 0 < |tool.got| <= |tool.keys|
     case Drain(_) => tool.phase.Draining? && tool.phase.l < |w.locks| && w.locks[tool.phase.l].full
     case DropHeld(_) => tool.phase.Drained? && tool.got != []
     case Return(_) => tool.phase.Releasing? && tool.got == [])
  }

  function SetPhase(w: World, t: nat, p: Phase): World
    requires t < |w.tools|
  {
    w.(tools := w.tools[t := w.tools[t].(phase := p)])
  }

  // acquire's first critical section: find or make the entry and count it.
  function Count(w: World, t: nat): World
    requires t < |w.tools| && |w.tools[t].got| < |w.tools[t].keys|
  {
    var k := w.tools[t].keys[|w.tools[t].got|];
    if k in w.entries && w.entries[k] < |w.locks| then
      var l := w.entries[k];
      SetPhase(w.(locks := w.locks[l := w.locks[l].(refs := w.locks[l].refs + 1)]), t, Waiting(l))
    else
      SetPhase(World(w.entries[k := |w.locks|], w.locks + [Lock(k, false, 1)], w.tools), t, Waiting(|w.locks|))
  }

  // drop: count down, and forget the entry of that key at zero.
  function Drop(w: World, key: Key, l: nat): World {
    if l >= |w.locks| then w
    else
      var refs := w.locks[l].refs - 1;
      w.(locks := w.locks[l := w.locks[l].(refs := refs)],
         entries := if refs == 0 then w.entries - {key} else w.entries)
  }

  function Fill(w: World, l: nat, full: bool): World
    requires l < |w.locks|
  {
    w.(locks := w.locks[l := w.locks[l].(full := full)])
  }

  function Grown(w: World, t: nat, got: seq<nat>, p: Phase): World
    requires t < |w.tools|
  {
    w.(tools := w.tools[t := w.tools[t].(got := got, phase := p)])
  }

  function Apply(w: World, s: Step): World {
    if !Enabled(w, s) then w
    else match s
      case Begin(paths) => w.(tools := w.tools + [Tool(Sorted(paths), [], Acquiring)])
      case Enter(t) => Count(w, t)
      case Take(t) =>
        var l := w.tools[t].phase.l;
        Grown(Fill(w, l, true), t, w.tools[t].got + [l], Acquiring)
      case Cancel(t) => SetPhase(w, t, Cancelled(w.tools[t].phase.l))
      case DropWait(t) =>
        var tool := w.tools[t];
        SetPhase(if |tool.got| < |tool.keys| then Drop(w, tool.keys[|tool.got|], tool.phase.l) else w, t, Releasing)
      case Finish(t) => SetPhase(w, t, Releasing)
      case LookUp(t) =>
        var k := w.tools[t].keys[|w.tools[t].got| - 1];
        SetPhase(w, t, if k in w.entries then Draining(w.entries[k]) else Crashed)
      case Drain(t) =>
        var l := w.tools[t].phase.l;
        SetPhase(Fill(w, l, false), t, Drained(l))
      case DropHeld(t) =>
        var tool := w.tools[t];
        var n := |tool.got| - 1;
        Grown(if n < |tool.keys| then Drop(w, tool.keys[n], tool.phase.l) else w, t, tool.got[..n], Releasing)
      case Return(t) => SetPhase(w, t, Done)
  }

  function Run(steps: seq<Step>): World {
    if steps == [] then Start() else Apply(Run(steps[..|steps| - 1]), steps[|steps| - 1])
  }

  // ---- Counting ----

  function Occurs(got: seq<nat>, l: nat): nat {
    if got == [] then 0 else Occurs(got[..|got| - 1], l) + if got[|got| - 1] == l then 1 else 0
  }

  // How often a tool is counted on l: for what it has, and for what it waits on.
  function Uses(tool: Tool, l: nat): nat {
    Occurs(tool.got, l) + if (tool.phase.Waiting? || tool.phase.Cancelled?) && tool.phase.l == l then 1 else 0
  }

  // Whether a tool's token is in the channel of l.
  function Holds(tool: Tool, l: nat): int {
    Occurs(tool.got, l) - if tool.phase.Drained? && tool.phase.l == l then 1 else 0
  }

  function Users(tools: seq<Tool>, l: nat): nat {
    if tools == [] then 0 else Users(tools[..|tools| - 1], l) + Uses(tools[|tools| - 1], l)
  }

  function Holders(tools: seq<Tool>, l: nat): int {
    if tools == [] then 0 else Holders(tools[..|tools| - 1], l) + Holds(tools[|tools| - 1], l)
  }

  lemma {:induction false} UsersUpdate(tools: seq<Tool>, t: nat, tool: Tool, l: nat)
    requires t < |tools|
    ensures Users(tools[t := tool], l) == Users(tools, l) - Uses(tools[t], l) + Uses(tool, l)
    ensures Holders(tools[t := tool], l) == Holders(tools, l) - Holds(tools[t], l) + Holds(tool, l)
  {
    hide Uses, Holds;
    var n := |tools| - 1;
    if t == n {
      assert tools[t := tool][..n] == tools[..n];
    } else {
      assert tools[t := tool][..n] == tools[..n][t := tool];
      UsersUpdate(tools[..n], t, tool, l);
    }
  }

  lemma {:induction false} UsersAtLeast(tools: seq<Tool>, t: nat, l: nat)
    requires t < |tools|
    ensures Users(tools, l) >= Uses(tools[t], l)
  {
    hide Uses;
    if t < |tools| - 1 {
      UsersAtLeast(tools[..|tools| - 1], t, l);
    }
  }

  lemma {:induction false} SomeUser(tools: seq<Tool>, l: nat) returns (t: nat)
    requires Users(tools, l) > 0
    ensures t < |tools| && Uses(tools[t], l) > 0
  {
    hide Uses;
    if Uses(tools[|tools| - 1], l) > 0 {
      t := |tools| - 1;
    } else {
      t := SomeUser(tools[..|tools| - 1], l);
    }
  }

  lemma {:induction false} OccursAt(got: seq<nat>, i: nat)
    requires i < |got|
    ensures Occurs(got, got[i]) >= 1
  {
    if i < |got| - 1 {
      OccursAt(got[..|got| - 1], i);
    }
  }

  lemma {:induction false} OccursSomewhere(got: seq<nat>, l: nat) returns (i: nat)
    requires Occurs(got, l) >= 1
    ensures i < |got| && got[i] == l
  {
    if got[|got| - 1] == l {
      i := |got| - 1;
    } else {
      i := OccursSomewhere(got[..|got| - 1], l);
    }
  }

  // ---- The invariant ----

  // A tool's locks are those of its keys, and it is where its phase says.
  predicate ToolValid(tool: Tool, locks: seq<Lock>) {
    && Ascending(tool.keys) && |tool.got| <= |tool.keys|
    && (forall i | 0 <= i < |tool.got| :: tool.got[i] < |locks| && locks[tool.got[i]].key == tool.keys[i])
    && match tool.phase
       case Waiting(l) => |tool.got| < |tool.keys| && l < |locks| && locks[l].key == tool.keys[|tool.got|]
       case Cancelled(l) => |tool.got| < |tool.keys| && l < |locks| && locks[l].key == tool.keys[|tool.got|]
       case Draining(l) => tool.got != [] && l == tool.got[|tool.got| - 1]
       case Drained(l) => tool.got != [] && l == tool.got[|tool.got| - 1]
       case Done => tool.got == []
       case Crashed => false
       case _ => true
  }

  // The map has an entry for a path exactly while its lock is counted by someone.
  predicate EntriesValid(entries: map<Key, nat>, locks: seq<Lock>) {
    && (forall k | k in entries :: entries[k] < |locks| && locks[entries[k]].key == k && locks[entries[k]].refs > 0)
    && (forall l | 0 <= l < |locks| && locks[l].refs > 0 :: locks[l].key in entries && entries[locks[l].key] == l)
  }

  predicate ToolsValid(tools: seq<Tool>, locks: seq<Lock>) {
    forall t | 0 <= t < |tools| :: ToolValid(tools[t], locks)
  }

  // Every count is the number of holders and waiters, and every channel is full exactly while one tool's token is in
  // it.
  predicate CountsValid(tools: seq<Tool>, locks: seq<Lock>) {
    forall l | 0 <= l < |locks| :: locks[l].refs == Users(tools, l) && Holders(tools, l) == Tokens(locks[l])
  }

  function Tokens(lock: Lock): int {
    if lock.full then 1 else 0
  }

  predicate Valid(w: World) {
    EntriesValid(w.entries, w.locks) && ToolsValid(w.tools, w.locks) && CountsValid(w.tools, w.locks)
  }

  // ---- Keeping it ----

  predicate SameKeys(locks: seq<Lock>, locks': seq<Lock>) {
    |locks| <= |locks'| && forall l | 0 <= l < |locks| :: locks'[l].key == locks[l].key
  }

  lemma ToolsKept(tools: seq<Tool>, locks: seq<Lock>, t: nat, tool: Tool, locks': seq<Lock>)
    requires ToolsValid(tools, locks) && t < |tools| && SameKeys(locks, locks') && ToolValid(tool, locks')
    ensures ToolsValid(tools[t := tool], locks')
  {
    forall u | 0 <= u < |tools| && u != t ensures ToolValid(tools[u], locks') {
      assert ToolValid(tools[u], locks);
    }
  }

  predicate Shifted(locks: seq<Lock>, locks': seq<Lock>, before: Tool, after: Tool) {
    |locks'| == |locks| && forall l | 0 <= l < |locks| ::
      && locks'[l].refs == locks[l].refs - Uses(before, l) + Uses(after, l)
      && Tokens(locks'[l]) == Tokens(locks[l]) - Holds(before, l) + Holds(after, l)
  }

  lemma CountsKept(tools: seq<Tool>, locks: seq<Lock>, t: nat, tool: Tool, locks': seq<Lock>)
    requires CountsValid(tools, locks) && t < |tools| && Shifted(locks, locks', tools[t], tool)
    ensures CountsValid(tools[t := tool], locks')
  {
    hide Uses, Holds, Users, Holders, Tokens;
    forall l | 0 <= l < |locks'|
      ensures locks'[l].refs == Users(tools[t := tool], l) && Holders(tools[t := tool], l) == Tokens(locks'[l])
    {
      UsersUpdate(tools, t, tool, l);
    }
  }

  lemma {:induction false} NewLockUnused(tools: seq<Tool>, locks: seq<Lock>, l: nat)
    requires ToolsValid(tools, locks) && l >= |locks|
    ensures Users(tools, l) == 0 && Holders(tools, l) == 0
  {
    if tools != [] {
      var tool := tools[|tools| - 1];
      assert ToolValid(tool, locks);
      NeverOccurs(tool, locks, l);
      NewLockUnused(tools[..|tools| - 1], locks, l);
    }
  }

  lemma NeverOccurs(tool: Tool, locks: seq<Lock>, l: nat)
    requires ToolValid(tool, locks) && l >= |locks|
    ensures Uses(tool, l) == 0 && Holds(tool, l) == 0
  {
    if Occurs(tool.got, l) >= 1 {
      var i := OccursSomewhere(tool.got, l);
    }
  }

  lemma OccursMore(got: seq<nat>, x: nat, l: nat)
    ensures Occurs(got + [x], l) == Occurs(got, l) + if x == l then 1 else 0
  {
    assert (got + [x])[..|got|] == got;
  }

  lemma BeginKeeps(w: World, paths: seq<Key>)
    requires Valid(w)
    ensures Valid(Apply(w, Begin(paths)))
  {
    hide Users, Holders, EntriesValid;
    var tool := Tool(Sorted(paths), [], Acquiring);
    SortedIs(paths);
    var tools := w.tools + [tool];
    forall l | 0 <= l < |w.locks|
      ensures Users(tools, l) == Users(w.tools, l) && Holders(tools, l) == Holders(w.tools, l)
    {
      UsersMore(w.tools, tool, l);
    }
  }

  lemma UsersMore(tools: seq<Tool>, tool: Tool, l: nat)
    ensures Users(tools + [tool], l) == Users(tools, l) + Uses(tool, l)
    ensures Holders(tools + [tool], l) == Holders(tools, l) + Holds(tool, l)
  {
    assert (tools + [tool])[..|tools|] == tools;
  }

  lemma AddLockKeeps(w: World, k: Key)
    requires Valid(w) && k !in w.entries
    ensures ToolsValid(w.tools, w.locks + [Lock(k, false, 0)]) && CountsValid(w.tools, w.locks + [Lock(k, false, 0)])
  {
    hide Users, Holders, EntriesValid;
    NewLockUnused(w.tools, w.locks, |w.locks|);
    assert SameKeys(w.locks, w.locks + [Lock(k, false, 0)]);
    forall t | 0 <= t < |w.tools| ensures ToolValid(w.tools[t], w.locks + [Lock(k, false, 0)]) {
      assert ToolValid(w.tools[t], w.locks);
    }
  }

  // Counting tool t on lock l of the given locks.
  lemma EnterKeeps(tools: seq<Tool>, locks: seq<Lock>, t: nat, l: nat)
    requires ToolsValid(tools, locks) && CountsValid(tools, locks) && t < |tools| && l < |locks|
    requires tools[t].phase.Acquiring? && |tools[t].got| < |tools[t].keys| &&
             locks[l].key == tools[t].keys[|tools[t].got|]
    ensures var tools' := tools[t := tools[t].(phase := Waiting(l))];
      var locks' := locks[l := locks[l].(refs := locks[l].refs + 1)];
      ToolsValid(tools', locks') && CountsValid(tools', locks')
  {
    hide ToolsValid, CountsValid;
    assert ToolValid(tools[t], locks) by { OneTool(tools, locks, t); }
    var locks' := locks[l := locks[l].(refs := locks[l].refs + 1)];
    ToolsKept(tools, locks, t, tools[t].(phase := Waiting(l)), locks');
    CountsKept(tools, locks, t, tools[t].(phase := Waiting(l)), locks');
  }

  lemma OneTool(tools: seq<Tool>, locks: seq<Lock>, t: nat)
    requires ToolsValid(tools, locks) && t < |tools|
    ensures ToolValid(tools[t], locks)
  {
  }

  lemma CountKeeps(w: World, t: nat)
    requires Valid(w) && Enabled(w, Enter(t))
    ensures Valid(Apply(w, Enter(t)))
  {
    hide ToolsValid, CountsValid;
    var k := w.tools[t].keys[|w.tools[t].got|];
    if k in w.entries {
      EnterKeeps(w.tools, w.locks, t, w.entries[k]);
    } else {
      AddLockKeeps(w, k);
      var locks := w.locks + [Lock(k, false, 0)];
      EnterKeeps(w.tools, locks, t, |w.locks|);
      assert locks[|w.locks| := Lock(k, false, 1)] == w.locks + [Lock(k, false, 1)];
    }
  }

  // A step that moves neither counts nor tokens.
  lemma PhaseKeeps(w: World, t: nat, p: Phase)
    requires Valid(w) && t < |w.tools| && ToolValid(w.tools[t].(phase := p), w.locks)
    requires forall l :: Uses(w.tools[t].(phase := p), l) == Uses(w.tools[t], l)
    requires !w.tools[t].phase.Drained? && !p.Drained?
    ensures Valid(SetPhase(w, t, p))
  {
    hide EntriesValid, ToolsValid, CountsValid, Uses;
    ToolsKept(w.tools, w.locks, t, w.tools[t].(phase := p), w.locks);
    CountsKept(w.tools, w.locks, t, w.tools[t].(phase := p), w.locks);
  }

  lemma TakeKeeps(w: World, t: nat)
    requires Valid(w) && Enabled(w, Take(t))
    ensures Valid(Apply(w, Take(t)))
  {
    hide ToolsValid, CountsValid, Occurs;
    var tool, l := w.tools[t], w.tools[t].phase.l;
    OneTool(w.tools, w.locks, t);
    var tool' := tool.(got := tool.got + [l], phase := Acquiring);
    var locks' := w.locks[l := w.locks[l].(full := true)];
    forall x: nat ensures Occurs(tool'.got, x) == Occurs(tool.got, x) + if l == x then 1 else 0 {
      OccursMore(tool.got, l, x);
    }
    ToolsKept(w.tools, w.locks, t, tool', locks');
    CountsKept(w.tools, w.locks, t, tool', locks');
  }

  // Some tool is counted on the lock it waits for, or holds.
  lemma Counted(w: World, t: nat, l: nat)
    requires Valid(w) && t < |w.tools| && l < |w.locks| && Uses(w.tools[t], l) >= 1
    ensures w.locks[l].refs >= 1 && w.locks[l].key in w.entries && w.entries[w.locks[l].key] == l
  {
    hide ToolsValid, Uses;
    UsersAtLeast(w.tools, t, l);
  }

  lemma DropKeepsEntries(w: World, l: nat)
    requires EntriesValid(w.entries, w.locks) && l < |w.locks| && w.locks[l].refs >= 1
    ensures var w' := Drop(w, w.locks[l].key, l); EntriesValid(w'.entries, w'.locks)
  {
  }

  lemma DropWaitKeeps(w: World, t: nat)
    requires Valid(w) && Enabled(w, DropWait(t))
    ensures Valid(Apply(w, DropWait(t)))
  {
    hide ToolsValid, CountsValid, EntriesValid, Occurs;
    var tool, l := w.tools[t], w.tools[t].phase.l;
    OneTool(w.tools, w.locks, t);
    Counted(w, t, l);
    DropKeepsEntries(w, l);
    var locks' := w.locks[l := w.locks[l].(refs := w.locks[l].refs - 1)];
    ToolsKept(w.tools, w.locks, t, tool.(phase := Releasing), locks');
    CountsKept(w.tools, w.locks, t, tool.(phase := Releasing), locks');
  }

  lemma DrainKeeps(w: World, t: nat)
    requires Valid(w) && Enabled(w, Drain(t))
    ensures Valid(Apply(w, Drain(t)))
  {
    hide ToolsValid, CountsValid, Occurs;
    var tool, l := w.tools[t], w.tools[t].phase.l;
    OneTool(w.tools, w.locks, t);
    var locks' := w.locks[l := w.locks[l].(full := false)];
    ToolsKept(w.tools, w.locks, t, tool.(phase := Drained(l)), locks');
    CountsKept(w.tools, w.locks, t, tool.(phase := Drained(l)), locks');
  }

  lemma DropHeldKeeps(w: World, t: nat)
    requires Valid(w) && Enabled(w, DropHeld(t))
    ensures Valid(Apply(w, DropHeld(t)))
  {
    hide ToolsValid, CountsValid, EntriesValid, Occurs;
    var tool, l := w.tools[t], w.tools[t].phase.l;
    OneTool(w.tools, w.locks, t);
    var n := |tool.got| - 1;
    var tool' := tool.(got := tool.got[..n], phase := Releasing);
    assert tool.got == tool.got[..n] + [l];
    forall x: nat ensures Occurs(tool.got, x) == Occurs(tool'.got, x) + if l == x then 1 else 0 {
      OccursMore(tool.got[..n], l, x);
    }
    Counted(w, t, l);
    DropKeepsEntries(w, l);
    var locks' := w.locks[l := w.locks[l].(refs := w.locks[l].refs - 1)];
    ToolsKept(w.tools, w.locks, t, tool', locks');
    CountsKept(w.tools, w.locks, t, tool', locks');
  }

  // The lock a release finds under its path is the very one that was acquired, and its channel is full.
  lemma ReleaseFindsItsLock(w: World, t: nat)
    requires Valid(w) && t < |w.tools| && w.tools[t].got != [] && !w.tools[t].phase.Drained?
    ensures |w.tools[t].got| <= |w.tools[t].keys|
    ensures var (k, l) := (w.tools[t].keys[|w.tools[t].got| - 1], w.tools[t].got[|w.tools[t].got| - 1]);
      k in w.entries && w.entries[k] == l < |w.locks| && w.locks[l].full
  {
    hide CountsValid, Occurs, EntriesValid;
    var tool := w.tools[t];
    var n := |tool.got| - 1;
    OneTool(w.tools, w.locks, t);
    OccursAt(tool.got, n);
    Counted(w, t, tool.got[n]);
    TokenIn(w, t, tool.got[n]);
  }

  lemma {:induction false} HoldersAtLeast(tools: seq<Tool>, locks: seq<Lock>, t: nat, l: nat)
    requires ToolsValid(tools, locks) && t < |tools|
    ensures Holders(tools, l) >= Holds(tools[t], l) && Holders(tools, l) >= 0
  {
    hide Occurs, ToolValid;
    OneTool(tools, locks, |tools| - 1);
    HoldsNatural(tools[|tools| - 1], locks, l);
    HoldersNatural(tools[..|tools| - 1], locks, l);
    if t < |tools| - 1 {
      HoldersAtLeast(tools[..|tools| - 1], locks, t, l);
    }
  }

  lemma {:induction false} HoldersNatural(tools: seq<Tool>, locks: seq<Lock>, l: nat)
    requires ToolsValid(tools, locks)
    ensures Holders(tools, l) >= 0
  {
    hide Holds, ToolValid;
    if tools != [] {
      OneTool(tools, locks, |tools| - 1);
      HoldsNatural(tools[|tools| - 1], locks, l);
      HoldersNatural(tools[..|tools| - 1], locks, l);
    }
  }

  lemma HoldsNatural(tool: Tool, locks: seq<Lock>, l: nat)
    requires ToolValid(tool, locks)
    ensures Holds(tool, l) >= 0
  {
    if tool.phase.Drained? {
      OccursAt(tool.got, |tool.got| - 1);
    }
  }

  lemma TokenIn(w: World, t: nat, l: nat)
    requires Valid(w) && t < |w.tools| && l < |w.locks| && Holds(w.tools[t], l) >= 1
    ensures w.locks[l].full
  {
    hide Holds, ToolsValid;
    HoldersAtLeast(w.tools, w.locks, t, l);
  }

  lemma LookUpKeeps(w: World, t: nat)
    requires Valid(w) && Enabled(w, LookUp(t))
    ensures Valid(Apply(w, LookUp(t)))
  {
    hide CountsValid, EntriesValid, Occurs;
    ReleaseFindsItsLock(w, t);
    OneTool(w.tools, w.locks, t);
    PhaseKeeps(w, t, Draining(w.tools[t].got[|w.tools[t].got| - 1]));
  }

  lemma StepKeeps(w: World, s: Step)
    requires Valid(w)
    ensures Valid(Apply(w, s))
  {
    hide EntriesValid, CountsValid, Occurs, ToolsValid;
    if Enabled(w, s) {
      match s
      case Begin(paths) => BeginKeeps(w, paths);
      case Enter(t) => CountKeeps(w, t);
      case Take(t) => TakeKeeps(w, t);
      case Cancel(t) =>
        OneTool(w.tools, w.locks, t);
        PhaseKeeps(w, t, Cancelled(w.tools[t].phase.l));
      case DropWait(t) => DropWaitKeeps(w, t);
      case Finish(t) =>
        OneTool(w.tools, w.locks, t);
        PhaseKeeps(w, t, Releasing);
      case LookUp(t) => LookUpKeeps(w, t);
      case Drain(t) => DrainKeeps(w, t);
      case DropHeld(t) => DropHeldKeeps(w, t);
      case Return(t) =>
        OneTool(w.tools, w.locks, t);
        PhaseKeeps(w, t, Done);
    }
  }

  lemma {:induction false} RunsAreValid(steps: seq<Step>)
    ensures Valid(Run(steps))
  {
    hide Valid;
    if steps == [] {
      StartIsValid();
    } else {
      RunsAreValid(steps[..|steps| - 1]);
      StepKeeps(Run(steps[..|steps| - 1]), steps[|steps| - 1]);
    }
  }

  lemma StartIsValid()
    ensures Valid(Start())
  {
  }

  // ---- What every run keeps ----

  // A tool holds a path from the moment its token is in the channel until it takes it out again.
  predicate HoldsPath(tool: Tool, k: Key) {
    exists i | 0 <= i < |tool.got| && i < |tool.keys| ::
      tool.keys[i] == k && !(tool.phase.Drained? && i == |tool.got| - 1)
  }

  // A tool counts on a path while it holds it, waits for it or has yet to let it go.
  predicate UsesPath(tool: Tool, k: Key) {
    || (exists i | 0 <= i < |tool.got| && i < |tool.keys| :: tool.keys[i] == k)
    || ((tool.phase.Waiting? || tool.phase.Cancelled?) && |tool.got| < |tool.keys| && tool.keys[|tool.got|] == k)
  }

  lemma {:induction false} OccursOnce(tool: Tool, locks: seq<Lock>, n: nat, l: nat)
    requires ToolValid(tool, locks) && n <= |tool.got| && l < |locks|
    ensures Occurs(tool.got[..n], l) <= if exists i | 0 <= i < n :: tool.keys[i] == locks[l].key then 1 else 0
    decreases n
  {
    if n > 0 {
      assert tool.got[..n][..n - 1] == tool.got[..n - 1];
      OccursOnce(tool, locks, n - 1, l);
      if tool.got[n - 1] == l {
        assert tool.keys[n - 1] == locks[l].key;
        assert !exists i | 0 <= i < n - 1 :: tool.keys[i] == locks[l].key;
      }
    }
  }

  // Counted on a path means counted, once, on the lock its entry names.
  lemma UsesTheEntry(w: World, t: nat, k: Key)
    requires Valid(w) && t < |w.tools|
    ensures UsesPath(w.tools[t], k) ==> k in w.entries
    ensures k in w.entries ==> Uses(w.tools[t], w.entries[k]) == if UsesPath(w.tools[t], k) then 1 else 0
  {
    hide CountsValid, EntriesValid, ToolsValid, Occurs;
    var tool := w.tools[t];
    OneTool(w.tools, w.locks, t);
    if UsesPath(tool, k) {
      if i :| 0 <= i < |tool.got| && tool.keys[i] == k {
        OccursAt(tool.got, i);
        Counted(w, t, tool.got[i]);
      } else {
        Counted(w, t, tool.phase.l);
      }
    }
    if k in w.entries {
      var l := w.entries[k];
      EntryKey(w, k);
      assert tool.got[..|tool.got|] == tool.got;
      OccursOnce(tool, w.locks, |tool.got|, l);
    }
  }

  lemma EntryKey(w: World, k: Key)
    requires Valid(w) && k in w.entries
    ensures w.entries[k] < |w.locks| && w.locks[w.entries[k]].key == k && w.locks[w.entries[k]].refs > 0
  {
    hide CountsValid, ToolsValid;
  }

  lemma HoldsTheEntry(w: World, t: nat, k: Key)
    requires Valid(w) && t < |w.tools| && HoldsPath(w.tools[t], k)
    ensures k in w.entries && Holds(w.tools[t], w.entries[k]) >= 1
  {
    hide CountsValid, EntriesValid, ToolsValid, Occurs;
    var tool := w.tools[t];
    OneTool(w.tools, w.locks, t);
    var i :| 0 <= i < |tool.got| && tool.keys[i] == k && !(tool.phase.Drained? && i == |tool.got| - 1);
    OccursAt(tool.got, i);
    Counted(w, t, tool.got[i]);
  }

  lemma {:induction false} HoldersOfTwo(tools: seq<Tool>, locks: seq<Lock>, t: nat, u: nat, l: nat)
    requires ToolsValid(tools, locks) && t < u < |tools|
    ensures Holders(tools, l) >= Holds(tools[t], l) + Holds(tools[u], l)
  {
    hide Holds, ToolValid;
    var n := |tools| - 1;
    if u < n {
      OneTool(tools, locks, n);
      HoldsNatural(tools[n], locks, l);
      HoldersOfTwo(tools[..n], locks, t, u, l);
    } else {
      HoldersAtLeast(tools[..n], locks, t, l);
    }
  }

  lemma AtMostOneToken(w: World, k: Key)
    requires Valid(w) && k in w.entries
    ensures Holders(w.tools, w.entries[k]) <= 1
  {
    hide ToolsValid, Holders, Users;
  }

  lemma TwoHoldersClash(w: World, t: nat, u: nat, k: Key)
    requires Valid(w) && t < u < |w.tools| && HoldsPath(w.tools[t], k)
    ensures !HoldsPath(w.tools[u], k)
  {
    hide Holds, HoldsPath, ToolsValid, EntriesValid, CountsValid;
    if HoldsPath(w.tools[u], k) {
      HoldsTheEntry(w, t, k);
      HoldsTheEntry(w, u, k);
      HoldersOfTwo(w.tools, w.locks, t, u, w.entries[k]);
      AtMostOneToken(w, k);
    }
  }

  // No two tools hold the same path.
  lemma MutualExclusion(steps: seq<Step>, t: nat, u: nat, k: Key)
    requires var w := Run(steps); t < |w.tools| && u < |w.tools| && HoldsPath(w.tools[t], k) && HoldsPath(w.tools[u], k)
    ensures t == u
  {
    hide Run, HoldsPath, Valid;
    RunsAreValid(steps);
    if t < u {
      TwoHoldersClash(Run(steps), t, u, k);
    } else if u < t {
      TwoHoldersClash(Run(steps), u, t, k);
    }
  }

  function ToolsUsing(tools: seq<Tool>, k: Key): nat {
    if tools == [] then 0
    else ToolsUsing(tools[..|tools| - 1], k) + if UsesPath(tools[|tools| - 1], k) then 1 else 0
  }

  // A tool is done with its work only while it holds every path it locks.
  lemma WorksUnderItsLocks(steps: seq<Step>, t: nat, k: Key)
    requires t < |Run(steps).tools| && Enabled(Run(steps), Finish(t)) && k in Run(steps).tools[t].keys
    ensures HoldsPath(Run(steps).tools[t], k)
  {
    hide Run, CountsValid, EntriesValid;
    RunsAreValid(steps);
    var tool := Run(steps).tools[t];
    OneTool(Run(steps).tools, Run(steps).locks, t);
    var i :| 0 <= i < |tool.keys| && tool.keys[i] == k;
    assert tool.keys[i] == k;
  }

  lemma KeysStay(w: World, s: Step, t: nat)
    requires t < |w.tools|
    ensures t < |Apply(w, s).tools| && Apply(w, s).tools[t].keys == w.tools[t].keys
  {
  }

  // From its call on, what a tool locks is exactly the paths it asked for.
  lemma {:induction false} LocksWhatItAsks(before: seq<Step>, paths: seq<Key>, after: seq<Step>, k: Key)
    ensures var (t, w) := (|Run(before).tools|, Run(before + [Begin(paths)] + after));
      t < |w.tools| && (k in w.tools[t].keys <==> k in paths)
    decreases |after|
  {
    hide Run, Apply, Sorted;
    var all := before + [Begin(paths)] + after;
    var t := |Run(before).tools|;
    if after == [] {
      assert all[..|all| - 1] == before && all[|all| - 1] == Begin(paths);
      assert Run(all) == Apply(Run(before), Begin(paths)) by { RunUnfolds(all); }
      BeginAdds(Run(before), paths);
      SortedIs(paths);
    } else {
      var n := |after| - 1;
      assert all[..|all| - 1] == before + [Begin(paths)] + after[..n] && all[|all| - 1] == after[n];
      LocksWhatItAsks(before, paths, after[..n], k);
      RunUnfolds(all);
      KeysStay(Run(all[..|all| - 1]), after[n], t);
    }
  }

  lemma RunUnfolds(steps: seq<Step>)
    requires steps != []
    ensures Run(steps) == Apply(Run(steps[..|steps| - 1]), steps[|steps| - 1])
  {
    hide Apply;
  }

  lemma BeginAdds(w: World, paths: seq<Key>)
    ensures Apply(w, Begin(paths)).tools == w.tools + [Tool(Sorted(paths), [], Acquiring)]
  {
  }

  lemma {:induction false} UsingAddsUp(w: World, k: Key, n: nat)
    requires Valid(w) && n <= |w.tools|
    ensures k in w.entries ==> Users(w.tools[..n], w.entries[k]) == ToolsUsing(w.tools[..n], k)
    ensures k !in w.entries ==> ToolsUsing(w.tools[..n], k) == 0
    decreases n
  {
    hide Valid, UsesPath, Uses;
    if n > 0 {
      assert w.tools[..n][..n - 1] == w.tools[..n - 1];
      UsingAddsUp(w, k, n - 1);
      UsesTheEntry(w, n - 1, k);
    }
  }

  lemma EntryCount(w: World, k: Key)
    requires Valid(w) && k in w.entries
    ensures w.entries[k] < |w.locks| && w.locks[w.entries[k]].refs == Users(w.tools, w.entries[k]) > 0
  {
    hide ToolsValid, Users, Holders;
  }

  // A path has an entry exactly while some tool counts on it, and the entry's count is the number of such tools.
  lemma EntryExactlyWhileUsed(steps: seq<Step>, k: Key)
    ensures var w := Run(steps);
      && (k in w.entries <==> ToolsUsing(w.tools, k) > 0)
      && (k in w.entries ==> w.entries[k] < |w.locks| && w.locks[w.entries[k]].key == k
                             && w.locks[w.entries[k]].refs == ToolsUsing(w.tools, k))
  {
    hide Run, Valid, UsesPath, Users, ToolsUsing;
    var w := Run(steps);
    RunsAreValid(steps);
    assert w.tools[..|w.tools|] == w.tools;
    UsingAddsUp(w, k, |w.tools|);
    if k in w.entries {
      EntryKey(w, k);
      EntryCount(w, k);
    }
  }

  // A tool about to take its token back finds it: it looked up the lock it acquired, and the channel is not empty.
  lemma ReleaseActsOnItsLock(steps: seq<Step>, t: nat)
    requires t < |Run(steps).tools|
    ensures var (w, tool) := (Run(steps), Run(steps).tools[t]);
      && !tool.phase.Crashed?
      && (tool.phase.Draining? ==> tool.got != [] && tool.phase.l == tool.got[|tool.got| - 1] && Enabled(w, Drain(t)))
  {
    hide Run, EntriesValid, CountsValid;
    RunsAreValid(steps);
    var w := Run(steps);
    OneTool(w.tools, w.locks, t);
    if w.tools[t].phase.Draining? {
      ReleaseFindsItsLock(w, t);
    }
  }

  // A tool that has returned, cancelled or not, holds nothing and is counted nowhere.
  lemma {:induction false} DoneHoldsNothing(steps: seq<Step>, t: nat, k: Key)
    requires t < |Run(steps).tools| && Run(steps).tools[t].phase.Done?
    ensures !HoldsPath(Run(steps).tools[t], k) && !UsesPath(Run(steps).tools[t], k)
  {
    hide Run, EntriesValid, CountsValid;
    RunsAreValid(steps);
    OneTool(Run(steps).tools, Run(steps).locks, t);
  }

  // ---- No deadlock ----

  // What a tool does next if nothing cancels it.
  function NextStep(tool: Tool, t: nat): Step {
    match tool.phase
    case Acquiring => if |tool.got| < |tool.keys| then Enter(t) else Finish(t)
    case Waiting(_) => Take(t)
    case Cancelled(_) => DropWait(t)
    case Releasing => if tool.got == [] then Return(t) else LookUp(t)
    case Draining(_) => Drain(t)
    case Drained(_) => DropHeld(t)
    case _ => Return(t)
  }

  predicate CanGoOn(w: World, t: nat) {
    t < |w.tools| && Enabled(w, NextStep(w.tools[t], t))
  }

  lemma OnlyWaitingCanBlock(w: World, t: nat)
    requires Valid(w) && t < |w.tools| && !w.tools[t].phase.Done? && !CanGoOn(w, t)
    ensures w.tools[t].phase.Waiting? && |w.tools[t].got| < |w.tools[t].keys|
    ensures w.tools[t].phase.l < |w.locks| && w.locks[w.tools[t].phase.l].full
    ensures w.locks[w.tools[t].phase.l].key == w.tools[t].keys[|w.tools[t].got|]
  {
    hide EntriesValid, CountsValid, ToolsValid;
    OneTool(w.tools, w.locks, t);
    if w.tools[t].phase.Draining? {
      ReleaseFindsItsLock(w, t);
    }
  }

  predicate Blocked(w: World, t: nat) {
    t < |w.tools| && !w.tools[t].phase.Done? && !CanGoOn(w, t)
  }

  function WaitsFor(tool: Tool): Key {
    if |tool.got| < |tool.keys| then tool.keys[|tool.got|] else 0
  }

  // Of the blocked tools, one that waits for the greatest path.
  lemma {:induction false} GreatestBlocked(w: World, n: nat) returns (m: nat)
    requires n <= |w.tools| && exists t | 0 <= t < n :: Blocked(w, t)
    ensures m < n && Blocked(w, m)
    ensures forall t | 0 <= t < n && Blocked(w, t) :: WaitsFor(w.tools[t]) <= WaitsFor(w.tools[m])
  {
    hide Blocked, WaitsFor;
    if exists t | 0 <= t < n - 1 :: Blocked(w, t) {
      m := GreatestBlocked(w, n - 1);
      if Blocked(w, n - 1) && WaitsFor(w.tools[m]) < WaitsFor(w.tools[n - 1]) {
        m := n - 1;
      }
    } else {
      m := n - 1;
    }
  }

  lemma {:induction false} SomeHolder(tools: seq<Tool>, l: nat) returns (u: nat)
    requires Holders(tools, l) > 0
    ensures u < |tools| && Holds(tools[u], l) > 0
  {
    hide Holds;
    if Holds(tools[|tools| - 1], l) > 0 {
      u := |tools| - 1;
    } else {
      u := SomeHolder(tools[..|tools| - 1], l);
    }
  }

  lemma HolderOfFull(w: World, l: nat) returns (u: nat)
    requires Valid(w) && l < |w.locks| && w.locks[l].full
    ensures u < |w.tools| && Holds(w.tools[u], l) > 0
  {
    hide ToolsValid, EntriesValid, Holds;
    u := SomeHolder(w.tools, l);
  }

  // Whoever holds a lock and is blocked waits for a greater path.
  lemma HolderWaitsHigher(w: World, u: nat, l: nat)
    requires Valid(w) && u < |w.tools| && l < |w.locks| && Holds(w.tools[u], l) > 0
    ensures !w.tools[u].phase.Done?
    ensures Blocked(w, u) ==> WaitsFor(w.tools[u]) > w.locks[l].key
  {
    hide EntriesValid, CountsValid, ToolsValid, Occurs, CanGoOn;
    var tool := w.tools[u];
    OneTool(w.tools, w.locks, u);
    var i := OccursSomewhere(tool.got, l);
    if Blocked(w, u) {
      OnlyWaitingCanBlock(w, u);
      assert tool.keys[i] < tool.keys[|tool.got|];
    }
  }

  lemma ValidWorldsProgress(w: World, t: nat)
    requires Valid(w) && t < |w.tools| && !w.tools[t].phase.Done?
    ensures exists u | 0 <= u < |w.tools| :: !w.tools[u].phase.Done? && CanGoOn(w, u)
  {
    hide Valid, CanGoOn, Holds;
    if !CanGoOn(w, t) {
      assert Blocked(w, t);
      var m := GreatestBlocked(w, |w.tools|);
      OnlyWaitingCanBlock(w, m);
      var u := HolderOfFull(w, w.tools[m].phase.l);
      HolderWaitsHigher(w, u, w.tools[m].phase.l);
    }
  }

  // While any tool is unfinished, some unfinished tool can take its next step without being cancelled.
  lemma NoDeadlock(steps: seq<Step>, t: nat)
    requires t < |Run(steps).tools| && !Run(steps).tools[t].phase.Done?
    ensures var w := Run(steps); exists u | 0 <= u < |w.tools| :: !w.tools[u].phase.Done? && CanGoOn(w, u)
  {
    hide Run, Valid, CanGoOn;
    RunsAreValid(steps);
    ValidWorldsProgress(Run(steps), t);
  }

  // ---- And no run without new tools goes on for ever ----

  // The steps a tool has left, at most.
  function Left(tool: Tool): int {
    var held, todo := 3 * |tool.got|, 5 * (|tool.keys| - |tool.got|);
    match tool.phase
    case Acquiring => todo + held + 2
    case Waiting(_) => todo + held + 1
    case Cancelled(_) => held + 2
    case Releasing => held + 1
    case Draining(_) => held
    case Drained(_) => held - 1
    case _ => 0
  }

  function AllLeft(tools: seq<Tool>): int {
    if tools == [] then 0 else AllLeft(tools[..|tools| - 1]) + Left(tools[|tools| - 1])
  }

  lemma {:induction false} LeftUpdate(tools: seq<Tool>, t: nat, tool: Tool)
    requires t < |tools|
    ensures AllLeft(tools[t := tool]) == AllLeft(tools) - Left(tools[t]) + Left(tool)
  {
    hide Left;
    var n := |tools| - 1;
    if t == n {
      assert tools[t := tool][..n] == tools[..n];
    } else {
      assert tools[t := tool][..n] == tools[..n][t := tool];
      LeftUpdate(tools[..n], t, tool);
    }
  }

  lemma {:induction false} LeftIsNatural(tools: seq<Tool>, locks: seq<Lock>)
    requires ToolsValid(tools, locks)
    ensures AllLeft(tools) >= 0
  {
    hide ToolValid, Left;
    if tools != [] {
      OneTool(tools, locks, |tools| - 1);
      OneLeftIsNatural(tools[|tools| - 1], locks);
      LeftIsNatural(tools[..|tools| - 1], locks);
    }
  }

  lemma OneLeftIsNatural(tool: Tool, locks: seq<Lock>)
    requires ToolValid(tool, locks)
    ensures Left(tool) >= 0
  {
  }

  lemma StepsUseThemselvesUp(w: World, s: Step)
    requires Valid(w) && Enabled(w, s) && !s.Begin?
    ensures AllLeft(Apply(w, s).tools) < AllLeft(w.tools)
  {
    hide EntriesValid, CountsValid, ToolsValid, AllLeft;
    OneTool(w.tools, w.locks, s.t);
    if s.LookUp? {
      ReleaseFindsItsLock(w, s.t);
    }
    LeftUpdate(w.tools, s.t, Apply(w, s).tools[s.t]);
    assert Apply(w, s).tools == w.tools[s.t := Apply(w, s).tools[s.t]];
  }

  function RunFrom(w: World, steps: seq<Step>): World {
    if steps == [] then w else Apply(RunFrom(w, steps[..|steps| - 1]), steps[|steps| - 1])
  }

  // Every step really happens, and none brings in a new tool.
  predicate Real(w: World, steps: seq<Step>) {
    forall i | 0 <= i < |steps| :: !steps[i].Begin? && Enabled(RunFrom(w, steps[..i]), steps[i])
  }

  lemma {:induction false} RunsAreBounded(w: World, steps: seq<Step>)
    requires Valid(w) && Real(w, steps)
    ensures Valid(RunFrom(w, steps)) && |steps| + AllLeft(RunFrom(w, steps).tools) <= AllLeft(w.tools)
  {
    hide Valid, AllLeft, Enabled;
    if steps != [] {
      var before := steps[..|steps| - 1];
      forall i | 0 <= i < |before| ensures !before[i].Begin? && Enabled(RunFrom(w, before[..i]), before[i]) {
        assert before[..i] == steps[..i] && before[i] == steps[i];
      }
      RunsAreBounded(w, before);
      StepKeeps(RunFrom(w, before), steps[|steps| - 1]);
      StepsUseThemselvesUp(RunFrom(w, before), steps[|steps| - 1]);
    }
  }

  // Left to themselves the tools all finish, however their steps interleave: a run takes no more steps than
  // the tools had left, and where it cannot go on every tool is done and the map is empty.
  lemma EveryToolFinishes(w: World, steps: seq<Step>)
    requires Valid(w) && Real(w, steps)
    ensures |steps| <= AllLeft(w.tools)
    ensures var end := RunFrom(w, steps);
      (forall u | 0 <= u < |end.tools| :: !CanGoOn(end, u))
      ==> (forall u | 0 <= u < |end.tools| :: end.tools[u].phase.Done?) && end.entries == map[]
  {
    hide EntriesValid, CountsValid, AllLeft, RunFrom, CanGoOn, Real;
    RunsAreBounded(w, steps);
    var end := RunFrom(w, steps);
    LeftIsNatural(end.tools, end.locks);
    if forall u | 0 <= u < |end.tools| :: !CanGoOn(end, u) {
      forall u | 0 <= u < |end.tools| ensures end.tools[u].phase.Done? {
        if !end.tools[u].phase.Done? {
          ValidWorldsProgress(end, u);
        }
      }
      NothingCounted(end);
    }
  }

  lemma NothingCounted(w: World)
    requires Valid(w) && forall u | 0 <= u < |w.tools| :: w.tools[u].phase.Done?
    ensures w.entries == map[]
  {
    hide Users, ToolsValid, EntriesValid, CountsValid;
    forall k | k in w.entries ensures false {
      EntryCount(w, k);
      var t := SomeUser(w.tools, w.entries[k]);
      OneTool(w.tools, w.locks, t);
    }
  }
}
