/** Stopping a process tree that keeps forking: the table scan, the search for
    descendants in it, and the loop that stops what each scan finds. */
module FreezeTree {
  import opened Graph
  import opened Sequences
  import opened ProcessTable

  // ------------------------------------------------- descendants in a table

  /** One row of the scanned table: a process and its parent. */
  type Row = (Pid, Pid)

  ghost function ChildIn(table: seq<Row>): (Pid, Pid) -> bool {
    (parent: Pid, child: Pid) => (child, parent) in table
  }

  /** What the search found so far closes under the table but for the pending rows. */
  ghost predicate ClosedBut(table: seq<Row>, root: Pid, found: seq<Pid>, frontier: seq<Pid>) {
    forall a, b :: (a == root || a in found) && a !in frontier && (b, a) in table && b != root ==> b in found
  }

  /** Exactly the processes below `root`, each once. */
  method DescendantsIn(root: Pid, table: seq<Row>) returns (found: seq<Pid>)
    ensures Distinct(found)
    ensures forall p :: p in found <==> p != root && Reaches(ChildIn(table), root, p)
  {
    found := [];
    var frontier := [root];
    ghost var rows := Elements(table);
    ghost var pids := set row | row in rows :: row.0;
    ReachesItself(ChildIn(table), root);
    while frontier != []
      invariant Distinct(found) && root !in found && Elements(found) <= pids
      invariant forall p :: p in frontier ==> p == root || p in found
      invariant forall p :: p == root || p in found ==> Reaches(ChildIn(table), root, p)
      invariant ClosedBut(table, root, found, frontier)
      decreases pids - Elements(found), |frontier|
    {
      var parent := frontier[|frontier| - 1];
      ghost var before, pending := found, frontier;
      frontier := frontier[..|frontier| - 1];
      for i := 0 to |table|
        invariant Distinct(found) && root !in found && Elements(found) <= pids && before <= found
        invariant found == before ==> frontier == pending[..|pending| - 1]
        invariant forall p :: p in frontier ==> p == root || p in found
        invariant forall p :: p == root || p in found ==> Reaches(ChildIn(table), root, p)
        invariant forall a, b ::
          (a == root || a in found) && a !in frontier && a != parent && (b, a) in table && b != root ==> b in found
        invariant forall j :: 0 <= j < i && table[j].1 == parent && table[j].0 != root ==> table[j].0 in found
      {
        var (pid, ppid) := table[i];
        if ppid == parent && pid != root && pid !in found {
          assert table[i] in rows;
          ReachesFurther(ChildIn(table), root, parent, pid);
          found := found + [pid];
          frontier := frontier + [pid];
        }
      }
      Grown(before, found, pids);
    }
    forall p | p != root && Reaches(ChildIn(table), root, p) ensures p in found {
      ghost var inside := (x: Pid) => x == root || x in found;
      assert Closed(ChildIn(table), inside);
      ReachedStaysInside(ChildIn(table), inside, root, p);
    }
  }

  lemma Grown(before: seq<Pid>, found: seq<Pid>, pids: set<Pid>)
    requires before <= found && Distinct(found) && Elements(found) <= pids
    ensures found == before || pids - Elements(found) < pids - Elements(before)
  {
    if found != before {
      assert found[|before|] in Elements(found) && found[|before|] !in Elements(before);
    }
  }

  // --------------------------------------------------------- one machine

  class Machine {
    var world: World
    /** Every list handed to the stop signal, in order. */
    var stops: seq<seq<Pid>>

    constructor (world: World)
      ensures this.world == world && stops == []
    {
      this.world := world;
      stops := [];
    }

    /** The processes run on for a while. Nothing is done here; a caller may
        only rely on the steps the processes can take. */
    method Interlude()
      requires world.Valid()
      modifies this`world
      ensures world.Valid() && Later(old(world), world)
    {
      ReachesItself(StepRelation(), world);
    }

    /** Sends the stop signal to `pids`, one after the other. What was held
        before stays held, `pids` are held too, and nobody else is stopped. */
    method Stop(pids: seq<Pid>, ghost held: set<Pid>)
      requires world.Valid() && INIT !in pids
      requires Held(world, held) && held + Elements(pids) <= world.born.Keys
      modifies this
      ensures world.Valid() && stops == old(stops) + [pids]
      ensures Held(world, held + Elements(pids)) && held + Elements(pids) <= world.born.Keys
      ensures Onward(old(world), world) && world.halted <= old(world).halted + Elements(pids)
    {
      stops := stops + [pids];
      ReachesItself(ChangeRelation(), world);
      for i := 0 to |pids|
        invariant world.Valid() && stops == old(stops) + [pids]
        invariant held + Elements(pids) <= world.born.Keys
        invariant Held(world, held + Elements(pids[..i]))
        invariant Onward(old(world), world) && world.halted <= old(world).halted + Elements(pids)
      {
        ghost var before := world;
        Interlude();
        OneStopped(old(world), before, world, pids[i], held + Elements(pids[..i]), held + Elements(pids));
        world := world.Stop(pids[i]);
        assert held + Elements(pids[..i + 1]) == held + Elements(pids[..i]) + {pids[i]};
      }
      assert pids[..|pids|] == pids;
    }

    /** The names in the process directory: every process there now, and
        whatever others appear while the directory is read. */
    method Listing() returns (names: seq<Pid>)
      ensures forall p :: p in world.procs ==> p in names
    {
      names := [];
      var left := world.procs.Keys;
      while left != {}
        invariant forall p :: p in world.procs ==> p in left || p in names
        decreases left
      {
        var p :| p in left;
        names := names + [p];
        left := left - {p};
      }
    }

    /** Reads the process table row by row while the processes run on: each row
        was true at an instant of its own, and a process that was there from
        beginning to end has a row. */
    method Scan() returns (table: seq<Row>, ghost instants: seq<World>)
      requires world.Valid()
      modifies this`world
      ensures world.Valid() && Later(old(world), world)
      ensures |instants| == |table| && forall i :: 0 <= i < |table| ==> ReadAt(old(world), world, instants[i], table[i])
      ensures forall p :: p in old(world).procs && p in world.procs ==> Listed(table, p)
    {
      table, instants := [], [];
      ReachesItself(StepRelation(), world);
      var names := Listing();
      for n := 0 to |names|
        invariant world.Valid() && Later(old(world), world)
        invariant |instants| == |table| && forall i :: 0 <= i < |table| ==>
          ReadAt(old(world), world, instants[i], table[i])
        invariant AllListed(old(world), world, table, names[..n])
      {
        ghost var before := world;
        Interlude();
        StillListed(old(world), before, world, instants, table, names[..n]);
        var pid := names[n];
        assert names[..n + 1] == names[..n] + [pid];
        if pid in world.procs {
          RowRead(old(world), world, instants, table, names[..n], pid);
          table, instants := table + [(pid, world.procs[pid].parent)], instants + [world];
        }
      }
      assert names[..|names|] == names;
    }
  }

  /** One process is stopped, a while after the one before it. */
  lemma OneStopped(start: World, before: World, w: World, p: Pid, held: set<Pid>, known: set<Pid>)
    requires w.Valid() && Onward(start, before) && Later(before, w) && p != INIT
    requires Held(before, held) && held <= known <= before.born.Keys
    ensures w.Stop(p).Valid() && Onward(start, w.Stop(p))
    ensures Held(w.Stop(p), held + {p}) && known <= w.Stop(p).born.Keys && w.Stop(p).halted <= before.halted + {p}
  {
    LaterKeepsHeld(before, w, held, known);
    StopKeepsValid(w, p);
    LaterIsOnward(start, before, w);
    LaterStopsNobody(before, w);
    StopIsOnward(start, w, p);
  }

  /** One scan: the rows it read between two worlds, and when each was true. */
  datatype Reading = Reading(start: World, table: seq<Row>, instants: seq<World>, end: World)

  ghost predicate Genuine(r: Reading) {
    && r.start.Valid() && Later(r.start, r.end)
    && |r.instants| == |r.table| && (forall i :: 0 <= i < |r.table| ==> ReadAt(r.start, r.end, r.instants[i], r.table[i]))
    && forall p :: p in r.start.procs && p in r.end.procs ==> Listed(r.table, p)
  }

  /** The table shows the process below the root, and it is not yet frozen. */
  ghost predicate IsNew(table: seq<Row>, root: Pid, frozen: seq<Pid>, p: Pid) {
    p != root && Reaches(ChildIn(table), root, p) && p !in frozen
  }

  /** These are all the new ones. */
  ghost predicate AllNew(pids: seq<Pid>, table: seq<Row>, root: Pid, frozen: seq<Pid>) {
    forall p :: p in pids <==> IsNew(table, root, frozen, p)
  }

  /** The row was true at an instant between two worlds. */
  ghost predicate ReadAt(start: World, end: World, instant: World, row: Row) {
    Later(start, instant) && Later(instant, end) && row.0 in instant.procs && instant.procs[row.0].parent == row.1
  }

  ghost predicate Listed(table: seq<Row>, p: Pid) {
    exists i :: 0 <= i < |table| && table[i].0 == p
  }

  /** Of these, whoever was there from `start` to `end` has a row. */
  ghost predicate AllListed(start: World, end: World, table: seq<Row>, names: seq<Pid>) {
    forall p :: p in names && p in start.procs && p in end.procs ==> Listed(table, p)
  }

  /** Time passes between two rows. */
  lemma StillListed(start: World, before: World, end: World, instants: seq<World>, table: seq<Row>, names: seq<Pid>)
    requires start.Valid() && Later(start, before) && Later(before, end)
    requires |instants| == |table| && forall i :: 0 <= i < |table| ==> ReadAt(start, before, instants[i], table[i])
    requires AllListed(start, before, table, names)
    ensures Later(start, end) && (forall i :: 0 <= i < |table| ==> ReadAt(start, end, instants[i], table[i]))
    ensures AllListed(start, end, table, names)
  {
    ReadEarlier(start, before, end, instants, table);
    ReachesTransitive(StepRelation(), start, before, end);
    forall p | p in names && p in start.procs && p in end.procs ensures Listed(table, p) {
      PresentThroughout(start, before, end, p);
    }
  }

  /** One more row is read. */
  lemma RowRead(start: World, w: World, instants: seq<World>, table: seq<Row>, names: seq<Pid>, pid: Pid)
    requires Later(start, w) && pid in w.procs && |instants| == |table|
    requires forall i :: 0 <= i < |table| ==> ReadAt(start, w, instants[i], table[i])
    requires AllListed(start, w, table, names)
    ensures var row := (pid, w.procs[pid].parent);
      && AllListed(start, w, table + [row], names + [pid])
      && forall i :: 0 <= i < |table| + 1 ==> ReadAt(start, w, (instants + [w])[i], (table + [row])[i])
  {
    ListedBefore(table, (pid, w.procs[pid].parent));
    ReachesItself(StepRelation(), w);
  }

  lemma ListedBefore(table: seq<Row>, row: Row)
    ensures forall p :: Listed(table, p) ==> Listed(table + [row], p)
    ensures Listed(table + [row], row.0)
  {
    forall p | Listed(table, p) ensures Listed(table + [row], p) {
      var i :| 0 <= i < |table| && table[i].0 == p;
      assert (table + [row])[i].0 == p;
    }
    assert (table + [row])[|table|].0 == row.0;
  }

  lemma ReadEarlier(start: World, before: World, end: World, instants: seq<World>, table: seq<Row>)
    requires |instants| == |table| && Later(before, end)
    requires forall i :: 0 <= i < |table| ==> ReadAt(start, before, instants[i], table[i])
    ensures forall i :: 0 <= i < |table| ==> ReadAt(start, end, instants[i], table[i])
  {
    forall i | 0 <= i < |table| ensures ReadAt(start, end, instants[i], table[i]) {
      ReachesTransitive(StepRelation(), instants[i], before, end);
    }
  }

  lemma PresentThroughout(start: World, between: World, end: World, p: Pid)
    requires start.Valid() && Later(start, between) && Later(between, end) && p in start.procs && p in end.procs
    ensures p in between.procs
  {
    LaterKeepsBorn(start, between, p);
    if p !in between.procs { LaterKeepsGone(between, end, p); }
  }

  // -------------------------------------------------- why the loop is safe

  /** A scan that finds nothing outside `held`, all of them held since before it
      began, leaves no descendant outside `held`, although its rows were read at
      different instants. */
  lemma NothingNewSeals(
      root: Pid, held: set<Pid>, start: World, end: World, table: seq<Row>, instants: seq<World>, found: seq<Pid>)
    requires start.Valid() && Later(start, end)
    requires root in held && INIT !in held && Held(start, held) && held <= start.born.Keys
    requires |instants| == |table| && forall i :: 0 <= i < |table| ==> ReadAt(start, end, instants[i], table[i])
    requires forall p :: p in start.procs && p in end.procs ==> Listed(table, p)
    requires forall p :: p in found <==> p != root && Reaches(ChildIn(table), root, p)
    requires Elements(found) <= held
    ensures Sealed(end, root, held)
  {
    LaterKeepsHeld(start, end, held);
    ghost var inside := (x: Pid) => x == root || x in found;
    forall a, b | inside(a) && ParentOf(end)(a, b) ensures inside(b) {
      assert a in Elements(found) || a == root;
      RowOfChild(held, start, end, table, instants, a, b);
      ReachesItself(ChildIn(table), root);
      ReachesFurther(ChildIn(table), root, a, b);
    }
    forall p | Descends(end, root, p) ensures p in held {
      ReachedStaysInside(ParentOf(end), inside, root, p);
      assert p in Elements(found);
    }
  }

  lemma RowOfChild(
      held: set<Pid>, start: World, end: World, table: seq<Row>, instants: seq<World>, parent: Pid, child: Pid)
    requires start.Valid() && Later(start, end)
    requires parent in held && INIT !in held && Held(start, held) && held <= start.born.Keys
    requires |instants| == |table| && forall i :: 0 <= i < |table| ==> ReadAt(start, end, instants[i], table[i])
    requires forall p :: p in start.procs && p in end.procs ==> Listed(table, p)
    requires child in end.procs && end.procs[child].parent == parent
    ensures (child, parent) in table
  {
    LaterAddsNoChild(start, end, parent, child);
    var i :| 0 <= i < |table| && table[i].0 == child;
    assert ReadAt(start, end, instants[i], table[i]);
    LaterKeepsHeld(start, instants[i], held);
    LaterAddsNoChild(instants[i], end, parent, child);
    assert table[i] == (child, parent);
  }

  /** Rows hold real processes, so the search finds neither init nor a stranger. */
  lemma FoundAreReal(root: Pid, start: World, end: World, table: seq<Row>, instants: seq<World>, found: seq<Pid>)
    requires start.Valid() && root in start.born && root != INIT
    requires |instants| == |table| && forall i :: 0 <= i < |table| ==> ReadAt(start, end, instants[i], table[i])
    requires forall p :: p in found <==> p != root && Reaches(ChildIn(table), root, p)
    ensures INIT !in found && forall p :: p in found ==> p in end.born
  {
    ghost var genuine := (x: Pid) => x == root || (x != INIT && x != KERNEL && x in end.born);
    forall a: Pid, b: Pid | genuine(a) && ChildIn(table)(a, b) ensures genuine(b) {
      var i :| 0 <= i < |table| && table[i] == (b, a);
      assert ReadAt(start, end, instants[i], table[i]);
      LaterKeepsValid(start, instants[i]);
      LaterKeepsBorn(instants[i], end, b);
    }
    forall p | p in found ensures p != INIT && p in end.born {
      ReachedStaysInside(ChildIn(table), genuine, root, p);
    }
  }

  /** Whoever the search finds was born into the tree, orphans that init adopted
      not being followed. */
  lemma FoundAreKin(root: Pid, start: World, end: World, table: seq<Row>, instants: seq<World>, p: Pid)
    requires start.Valid() && root in start.born && root != INIT && Later(start, end)
    requires |instants| == |table| && forall i :: 0 <= i < |table| ==> ReadAt(start, end, instants[i], table[i])
    requires Reaches(ChildIn(table), root, p)
    ensures Reaches(BirthParentOf(end), root, p)
  {
    ghost var kin := (x: Pid) => x != INIT && x != KERNEL && Reaches(BirthParentOf(end), root, x);
    ReachesItself(BirthParentOf(end), root);
    forall a: Pid, b: Pid | kin(a) && ChildIn(table)(a, b) ensures kin(b) {
      var i :| 0 <= i < |table| && table[i] == (b, a);
      assert ReadAt(start, end, instants[i], table[i]);
      LaterKeepsValid(start, instants[i]);
      LaterKeepsBorn(instants[i], end, b);
      ReachesFurther(BirthParentOf(end), root, a, b);
    }
    ReachedStaysInside(ChildIn(table), kin, root, p);
  }

  // ------------------------------------------------------------ the loop

  /** `snapshot().filter(|pid| !frozen.contains(pid))` */
  method NotFrozen(snapshot: seq<Pid>, frozen: seq<Pid>) returns (arrivals: seq<Pid>)
    requires Distinct(snapshot) && Distinct(frozen)
    ensures forall p :: p in arrivals <==> p in snapshot && p !in frozen
    ensures Distinct(frozen + arrivals)
  {
    arrivals := [];
    for i := 0 to |snapshot|
      invariant forall p :: p in arrivals <==> p in snapshot[..i] && p !in frozen
      invariant Distinct(frozen + arrivals)
    {
      assert snapshot[i] !in snapshot[..i];
      if snapshot[i] !in frozen {
        assert frozen + (arrivals + [snapshot[i]]) == (frozen + arrivals) + [snapshot[i]];
        arrivals := arrivals + [snapshot[i]];
      }
    }
    assert snapshot[..|snapshot|] == snapshot;
  }

  /** One scan of the tree: what it found that is not frozen yet, all of it born
      into the tree. When that is nothing, the tree is sealed. */
  method Arrivals(machine: Machine, root: Pid, frozen: seq<Pid>) returns (arrivals: seq<Pid>, ghost reading: Reading)
    requires machine.world.Valid() && Distinct(frozen) && root in frozen && root != INIT && INIT !in frozen
    requires Held(machine.world, Elements(frozen)) && Elements(frozen) <= machine.world.born.Keys
    modifies machine`world
    ensures machine.world.Valid() && Distinct(frozen + arrivals) && INIT !in arrivals
    ensures Held(machine.world, Elements(frozen)) && Elements(frozen) + Elements(arrivals) <= machine.world.born.Keys
    ensures Genuine(reading) && reading.start == old(machine.world) && reading.end == machine.world
    ensures AllNew(arrivals, reading.table, root, frozen)
    ensures forall p :: p in arrivals ==> Reaches(BirthParentOf(machine.world), root, p)
    ensures arrivals == [] ==> Sealed(machine.world, root, Elements(frozen))
  {
    ghost var start := machine.world;
    var table, instants := machine.Scan();
    reading := Reading(start, table, instants, machine.world);
    var snapshot := DescendantsIn(root, table);
    arrivals := NotFrozen(snapshot, frozen);
    LaterKeepsHeld(start, machine.world, Elements(frozen));
    FoundAreReal(root, start, machine.world, table, instants, snapshot);
    forall p | p in arrivals ensures Reaches(BirthParentOf(machine.world), root, p) {
      FoundAreKin(root, start, machine.world, table, instants, p);
    }
    if arrivals == [] {
      assert forall p :: p in Elements(snapshot) ==> p !in arrivals;
      NothingNewSeals(root, Elements(frozen), start, machine.world, table, instants, snapshot);
    }
  }

  /** Stop `k + 1` is of what scan `k` showed below the root beyond the stops before
      it, all of which had taken effect when the scan began. */
  ghost predicate Answers(stops: seq<seq<Pid>>, readings: seq<Reading>, root: Pid, k: nat)
    requires k < |readings| && k + 1 < |stops|
  {
    && Genuine(readings[k]) && Held(readings[k].start, Elements(Concat(stops[..k + 1])))
    && stops[k + 1] != [] && AllNew(stops[k + 1], readings[k].table, root, Concat(stops[..k + 1]))
  }

  /** The last scan shows nothing beyond what was stopped before it. */
  ghost predicate NothingNew(stops: seq<seq<Pid>>, readings: seq<Reading>, root: Pid) {
    0 < |readings| <= |stops| && AllNew([], readings[|readings| - 1].table, root, Concat(stops[..|readings|]))
  }

  /** What was answered before a further stop and scan stays answered. */
  lemma StaysAnswered(stops: seq<seq<Pid>>, readings: seq<Reading>, root: Pid, k: nat, pids: seq<Pid>,
                      more: seq<Reading>)
    requires k < |readings| && k + 1 < |stops| && Answers(stops, readings, root, k)
    ensures Answers(stops + [pids], readings + more, root, k)
  {
    assert (stops + [pids])[..k + 1] == stops[..k + 1];
  }

  lemma LastAnswered(stops: seq<seq<Pid>>, readings: seq<Reading>, root: Pid, pids: seq<Pid>, reading: Reading)
    requires |stops| == |readings| + 1 && Genuine(reading) && Held(reading.start, Elements(Concat(stops)))
    requires pids != [] && AllNew(pids, reading.table, root, Concat(stops))
    ensures Answers(stops + [pids], readings + [reading], root, |readings|)
  {
    assert (stops + [pids])[..|stops|] == stops;
  }

  /** An unsettled answer froze something in each round. */
  lemma {:induction false} NoneEmpty<T>(parts: seq<seq<T>>)
    requires forall k :: 0 <= k < |parts| ==> parts[k] != []
    ensures |Concat(parts)| >= |parts|
  {
    if parts != [] { NoneEmpty(parts[..|parts| - 1]); }
  }

  lemma Unsettled(stops: seq<seq<Pid>>, readings: seq<Reading>, root: Pid)
    requires |stops| == |readings| + 1 && stops[0] != []
    requires forall k :: 0 <= k < |readings| ==> Answers(stops, readings, root, k)
    ensures !NothingNew(stops, readings, root) && |Concat(stops)| > |readings|
  {
    forall k | 0 <= k < |stops| ensures stops[k] != [] {
      if k > 0 { assert Answers(stops, readings, root, k - 1); }
    }
    NoneEmpty(stops);
    if readings != [] {
      var k := |readings| - 1;
      assert Answers(stops, readings, root, k) && stops[k + 1][0] in stops[k + 1];
      assert IsNew(readings[k].table, root, Concat(stops[..k + 1]), stops[k + 1][0]);
    }
  }

  /** The scan takes place on this machine. */
  ghost predicate Within(start: World, reading: Reading, end: World) {
    Onward(start, reading.start) && Onward(reading.end, end)
  }

  ghost predicate AllBelow(w: World, root: Pid, pids: seq<Pid>) {
    forall p :: p in pids ==> Reaches(BirthParentOf(w), root, p)
  }

  lemma StillBelow(w: World, later: World, root: Pid, pids: seq<Pid>)
    requires AllBelow(w, root, pids) && Onward(w, later)
    ensures AllBelow(later, root, pids)
  {
    forall p | p in pids ensures Reaches(BirthParentOf(later), root, p) {
      OnwardKeepsBirths(w, later, root, p);
    }
  }

  /** How far the loop has come. */
  ghost predicate Progress(start: World, w: World, stops: seq<seq<Pid>>, readings: seq<Reading>, root: Pid,
                           frozen: seq<Pid>) {
    && w.Valid() && Onward(start, w) && |stops| == |readings| + 1 && stops[0] == [root] && Concat(stops) == frozen
    && frozen != [] && frozen[0] == root && root != INIT && INIT !in frozen && Distinct(frozen)
    && Held(w, Elements(frozen)) && Elements(frozen) <= w.born.Keys
    && (forall k :: 0 <= k < |readings| ==> Within(start, readings[k], w))
    && (forall k :: 0 <= k < |readings| ==> Answers(stops, readings, root, k))
    && AllBelow(w, root, frozen) && w.halted <= start.halted + Elements(frozen)
  }

  /** A scan by itself keeps the progress. */
  lemma ScanKeepsProgress(start: World, stops: seq<seq<Pid>>, readings: seq<Reading>, root: Pid, frozen: seq<Pid>,
                          reading: Reading)
    requires Progress(start, reading.start, stops, readings, root, frozen) && Genuine(reading)
    ensures Progress(start, reading.end, stops, readings, root, frozen) && Within(start, reading, reading.end)
  {
    LaterKeepsValid(reading.start, reading.end);
    LaterKeepsHeld(reading.start, reading.end, Elements(frozen));
    LaterStopsNobody(reading.start, reading.end);
    ReachesItself(ChangeRelation(), reading.end);
    ScannedOn(start, reading, readings);
    StillWithin(start, readings, reading.start, reading.end);
    StillBelow(reading.start, reading.end, root, frozen);
  }

  /** And so does a stop of what it showed. */
  lemma StopKeepsProgress(start: World, stops: seq<seq<Pid>>, readings: seq<Reading>, root: Pid, frozen: seq<Pid>,
                          reading: Reading, arrivals: seq<Pid>, later: World)
    requires Progress(start, reading.end, stops, readings, root, frozen) && Within(start, reading, reading.end)
    requires Genuine(reading) && Held(reading.start, Elements(frozen)) && arrivals != []
    requires AllNew(arrivals, reading.table, root, frozen) && AllBelow(reading.end, root, arrivals)
    requires Distinct(frozen + arrivals) && INIT !in arrivals && Onward(reading.end, later) && later.Valid()
    requires Held(later, Elements(frozen) + Elements(arrivals))
    requires Elements(frozen) + Elements(arrivals) <= later.born.Keys
    requires later.halted <= reading.end.halted + Elements(arrivals)
    ensures Progress(start, later, stops + [arrivals], readings + [reading], root, frozen + arrivals)
  {
    var more, longer := readings + [reading], stops + [arrivals];
    OnwardFurther(start, reading.end, later);
    Appended(frozen, arrivals, longer);
    StillBelow(reading.end, later, root, frozen + arrivals);
    forall k | 0 <= k < |more| ensures Within(start, more[k], reading.end) {
    }
    StillWithin(start, more, reading.end, later);
    LastAnswered(stops, readings, root, arrivals, reading);
    forall k | 0 <= k < |more| ensures Answers(longer, more, root, k) {
      if k < |readings| { StaysAnswered(stops, readings, root, k, arrivals, [reading]); }
    }
  }

  /** Freezes `root` and every descendant it has. Whatever the processes did
      meanwhile: each stop but the first is of exactly what a scan of its own showed
      that was not yet frozen; every process handed to the stop signal is held, was
      handed over once and in answer order, and was born into the tree, and nobody
      else is stopped. The loop settles iff a scan shows nothing new, and then the
      tree is sealed; otherwise it froze more than `rounds` processes. */
  method Freeze(machine: Machine, root: Pid, rounds: nat)
      returns (frozen: seq<Pid>, settled: bool, ghost readings: seq<Reading>)
    requires machine.world.Valid() && root in machine.world.born && root != INIT && machine.stops == []
    modifies machine
    ensures machine.world.Valid()
    ensures frozen != [] && frozen[0] == root && Distinct(frozen)
    ensures Held(machine.world, Elements(frozen))
    ensures Concat(machine.stops) == frozen && 0 < |machine.stops| <= rounds + 1 && machine.stops[0] == [root]
    ensures |readings| == if settled then |machine.stops| else rounds
    ensures forall k :: 0 <= k < |readings| ==> Within(old(machine.world), readings[k], machine.world)
    ensures forall k :: 0 <= k < |machine.stops| - 1 ==> Answers(machine.stops, readings, root, k)
    ensures settled <==> NothingNew(machine.stops, readings, root)
    ensures settled ==> Genuine(readings[|readings| - 1]) && readings[|readings| - 1].end == machine.world
    ensures AllBelow(machine.world, root, frozen)
    ensures machine.world.halted <= old(machine.world).halted + Elements(frozen)
    ensures settled ==> Sealed(machine.world, root, Elements(frozen))
    ensures !settled ==> |machine.stops| == rounds + 1 && |frozen| > rounds
  {
    frozen := [root];
    readings := [];
    machine.Stop(frozen, {});
    Begun(old(machine.world), machine.world, root);
    settled := false;
    var round := 0;
    while round < rounds
      invariant round <= rounds && |readings| == round && !settled
      invariant Progress(old(machine.world), machine.world, machine.stops, readings, root, frozen)
    {
      var arrivals, reading := Arrivals(machine, root, frozen);
      ScanKeepsProgress(old(machine.world), machine.stops, readings, root, frozen, reading);
      if arrivals == [] {
        settled := true;
        Settled(old(machine.world), machine.stops, readings, root, frozen, reading);
        readings := readings + [reading];
        break;
      }
      ghost var stops := machine.stops;
      machine.Stop(arrivals, Elements(frozen));
      StopKeepsProgress(old(machine.world), stops, readings, root, frozen, reading, arrivals, machine.world);
      readings := readings + [reading];
      frozen := frozen + arrivals;
      round := round + 1;
    }
    if !settled { Unsettled(machine.stops, readings, root); }
  }

  lemma Begun(start: World, w: World, root: Pid)
    requires w.Valid() && Onward(start, w) && root != INIT && Held(w, {} + Elements([root]))
    requires {} + Elements([root]) <= w.born.Keys && w.halted <= start.halted + Elements([root])
    ensures Progress(start, w, [] + [[root]], [], root, [root])
  {
    Appended([], [root], [[root]]);
    ReachesItself(BirthParentOf(w), root);
    assert {} + Elements([root]) == Elements([root]);
  }

  lemma Settled(start: World, stops: seq<seq<Pid>>, readings: seq<Reading>, root: Pid, frozen: seq<Pid>,
                reading: Reading)
    requires Progress(start, reading.end, stops, readings, root, frozen) && Within(start, reading, reading.end)
    requires AllNew([], reading.table, root, frozen)
    ensures var more := readings + [reading];
      && (forall k :: 0 <= k < |more| ==> Within(start, more[k], reading.end))
      && (forall k :: 0 <= k < |stops| - 1 ==> Answers(stops, more, root, k)) && NothingNew(stops, more, root)
  {
    assert stops[..|stops|] == stops;
    forall k | 0 <= k < |readings| ensures Answers(stops, readings + [reading], root, k) {
      assert Answers(stops, readings, root, k);
    }
  }

  lemma StillWithin(start: World, readings: seq<Reading>, end: World, later: World)
    requires Onward(end, later) && forall k :: 0 <= k < |readings| ==> Within(start, readings[k], end)
    ensures forall k :: 0 <= k < |readings| ==> Within(start, readings[k], later)
  {
    forall k | 0 <= k < |readings| ensures Within(start, readings[k], later) {
      OnwardFurther(readings[k].end, end, later);
    }
  }

  /** One more scan, from where the machine was. */
  lemma ScannedOn(start: World, reading: Reading, readings: seq<Reading>)
    requires Onward(start, reading.start) && Genuine(reading)
    requires forall k :: 0 <= k < |readings| ==> Within(start, readings[k], reading.start)
    ensures Onward(start, reading.end) && Onward(reading.start, reading.end)
    ensures forall k :: 0 <= k < |readings| + 1 ==> Within(start, (readings + [reading])[k], reading.end)
  {
    ReachesItself(ChangeRelation(), reading.start);
    ReachesItself(ChangeRelation(), reading.end);
    LaterIsOnward(reading.start, reading.start, reading.end);
    OnwardFurther(start, reading.start, reading.end);
    StillWithin(start, readings, reading.start, reading.end);
  }

  lemma Appended(frozen: seq<Pid>, arrivals: seq<Pid>, stops: seq<seq<Pid>>)
    requires stops != [] && stops[|stops| - 1] == arrivals && Concat(stops[..|stops| - 1]) == frozen
    ensures Elements(frozen + arrivals) == Elements(frozen) + Elements(arrivals)
    ensures Concat(stops) == frozen + arrivals
  {
  }

  // ----------------------------------------------------- once it is sealed

  lemma StepKeepsSeal(w: World, next: World, root: Pid, pids: set<Pid>)
    requires w.Valid() && Sealed(w, root, pids) && w.Steps(next)
    ensures Sealed(next, root, pids) && forall p :: Descends(next, root, p) ==> Descends(w, root, p)
  {
    ghost var tree := (x: Pid) => x == root || Descends(w, root, x);
    forall a, b | tree(a) && ParentOf(next)(a, b) ensures tree(b) {
      assert a in pids && !w.Runs(a) && a != INIT;
      assert b in w.procs && w.procs[b].parent == a;
      ReachesItself(ParentOf(w), root);
      ReachesFurther(ParentOf(w), root, a, b);
    }
    forall p | Descends(next, root, p) ensures Descends(w, root, p) {
      ReachedStaysInside(ParentOf(next), tree, root, p);
    }
  }

  /** A sealed tree stays sealed, and no later step adds a descendant. */
  lemma SealedForGood(w: World, later: World, root: Pid, pids: set<Pid>)
    requires w.Valid() && Sealed(w, root, pids) && Later(w, later)
    ensures Sealed(later, root, pids) && forall p :: Descends(later, root, p) ==> Descends(w, root, p)
  {
    ghost var inv := (x: World) => x.Valid() && Sealed(x, root, pids)
      && forall p :: Descends(x, root, p) ==> Descends(w, root, p);
    forall a: World, b: World | inv(a) && a.Steps(b) ensures inv(b) {
      StepKeepsValid(a, b);
      StepKeepsSeal(a, b, root, pids);
    }
    LaterKeeps(inv, w, later);
  }

  /** What can escape a sealed tree: a process still there that ever descended
      from the root is among `pids`, or has lost an ancestor that exited without
      a stop ever taking effect on it. */
  lemma OnlyOrphansEscape(w: World, root: Pid, pids: set<Pid>, lineage: seq<Pid>, p: Pid)
    requires w.Valid() && Sealed(w, root, pids) && p in w.procs
    requires Connects(BirthParentOf(w), lineage, root, p)
    ensures p in pids || exists i :: 0 <= i < |lineage| - 1 && !w.Live(lineage[i]) && lineage[i] !in w.halted
  {
    if forall i :: 0 <= i < |lineage| - 1 ==> w.Live(lineage[i]) {
      forall i | 0 <= i < |lineage| - 1 ensures ParentOf(w)(lineage[i], lineage[i + 1]) {
        assert BirthParentOf(w)(lineage[i], lineage[i + 1]);
        if i + 1 < |lineage| - 1 {
          assert w.Live(lineage[i + 1]) && lineage[i + 1] != KERNEL;
        }
      }
      assert Connects(ParentOf(w), lineage, root, p);
      assert p != root ==> Descends(w, root, p);
    } else {
      var i :| 0 <= i < |lineage| - 1 && !w.Live(lineage[i]);
      assert lineage[i] !in w.halted;
    }
  }
}
