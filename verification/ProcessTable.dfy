/** The processes of one machine while a controller stops a tree of them:
    what they may do by themselves, and what a stop does to them. */
module ProcessTable {
  import opened Graph

  type Pid = nat

  /** The parent of the first process; never a process itself. */
  const KERNEL: Pid := 0
  /** The process that adopts orphans; it never exits. */
  const INIT: Pid := 1

  datatype Status = Running | Stopped | Zombie

  datatype Proc = Proc(parent: Pid, status: Status)

  /** `procs` is what the process table shows. `born` remembers every process
      there ever was with its first parent, and `halted` every process a stop
      took effect on: both are history that no step reads. */
  datatype World = World(procs: map<Pid, Proc>, born: map<Pid, Pid>, halted: set<Pid>) {
    predicate Live(p: Pid) {
      p == KERNEL || (p in procs && !procs[p].status.Zombie?)
    }

    predicate Runs(p: Pid) {
      p in procs && procs[p].status.Running?
    }

    /** A process is its first parent's child while that parent lives, and
        then init's; what was stopped stays so. */
    ghost predicate Valid() {
      && KERNEL !in born && procs.Keys <= born.Keys
      && INIT in procs && procs[INIT] == Proc(KERNEL, Running) && born[INIT] == KERNEL
      && (forall p :: p in born ==> born[p] == KERNEL || born[p] in born)
      && (forall p :: p in procs ==> procs[p].parent == if Live(born[p]) then born[p] else INIT)
      && (forall p :: p in halted ==> p in procs && procs[p].status.Stopped?)
    }

    /** A running process forks a child under a pid not used before. */
    ghost predicate Forks(next: World, p: Pid, child: Pid) {
      && Runs(p) && child !in born && child != KERNEL
      && next == World(procs[child := Proc(p, Running)], born[child := p], halted)
    }

    /** A running process exits: it stays in the table as a zombie, and its
        children are init's from now on. */
    ghost predicate Exits(next: World, p: Pid) {
      && Runs(p) && p != INIT
      && next.born == born && next.halted == halted && next.procs.Keys == procs.Keys
      && forall q :: q in procs ==>
           next.procs[q] == Proc(if procs[q].parent == p then INIT else procs[q].parent,
                                 if q == p then Zombie else procs[q].status)
    }

    /** A zombie is reaped. */
    ghost predicate Reaped(next: World, p: Pid) {
      p in procs && procs[p].status.Zombie? && next == World(procs - {p}, born, halted)
    }

    /** One step the processes take by themselves. */
    ghost predicate Steps(next: World) {
      || (exists p, child :: Forks(next, p, child))
      || (exists p :: Exits(next, p))
      || (exists p :: Reaped(next, p))
    }

    /** The stop signal: a running process stops, any other is left as it is. */
    function Stop(p: Pid): World {
      if Runs(p) then World(procs[p := Proc(procs[p].parent, Stopped)], born, halted + {p}) else this
    }
  }

  ghost function StepRelation(): (World, World) -> bool {
    (w: World, next: World) => w.Steps(next)
  }

  /** `later` is reached from `w` by any number of the processes' own steps. */
  ghost predicate Later(w: World, later: World) {
    Reaches(StepRelation(), w, later)
  }

  /** What happens to a machine: the processes' own steps, and stops. */
  ghost function ChangeRelation(): (World, World) -> bool {
    (w: World, next: World) => w.Steps(next) || exists p :: next == w.Stop(p)
  }

  ghost predicate Onward(w: World, later: World) {
    Reaches(ChangeRelation(), w, later)
  }

  ghost function ParentOf(w: World): (Pid, Pid) -> bool {
    (a: Pid, b: Pid) => b in w.procs && w.procs[b].parent == a
  }

  ghost function BirthParentOf(w: World): (Pid, Pid) -> bool {
    (a: Pid, b: Pid) => b in w.born && w.born[b] == a
  }

  ghost predicate Descends(w: World, root: Pid, p: Pid) {
    p != root && Reaches(ParentOf(w), root, p)
  }

  /** None of `pids` runs. */
  ghost predicate Held(w: World, pids: set<Pid>) {
    forall p :: p in pids ==> !w.Runs(p)
  }

  /** The whole tree under `root` is among `pids`, and none of them runs. */
  ghost predicate Sealed(w: World, root: Pid, pids: set<Pid>) {
    root in pids && pids <= w.born.Keys && INIT !in pids && Held(w, pids) && forall p :: Descends(w, root, p) ==>
      p in pids
  }

  // ------------------------------------------------- what steps keep

  lemma ForkKeepsValid(w: World, next: World, p: Pid, child: Pid)
    requires w.Valid() && w.Forks(next, p, child)
    ensures next.Valid()
  {
  }

  lemma ExitKeepsValid(w: World, next: World, p: Pid)
    requires w.Valid() && w.Exits(next, p)
    ensures next.Valid()
  {
  }

  lemma ReapKeepsValid(w: World, next: World, p: Pid)
    requires w.Valid() && w.Reaped(next, p)
    ensures next.Valid()
  {
  }

  lemma StepKeepsValid(w: World, next: World)
    requires w.Valid() && w.Steps(next)
    ensures next.Valid()
  {
    if p, child :| w.Forks(next, p, child) {
      ForkKeepsValid(w, next, p, child);
    } else if p :| w.Exits(next, p) {
      ExitKeepsValid(w, next, p);
    } else {
      var p :| w.Reaped(next, p);
      ReapKeepsValid(w, next, p);
    }
  }

  lemma StopKeepsValid(w: World, p: Pid)
    requires w.Valid() && p != INIT
    ensures w.Stop(p).Valid() && !w.Stop(p).Runs(p)
  {
  }

  /** Induction over the processes' own steps. */
  lemma LaterKeeps(inv: World -> bool, w: World, later: World)
    requires inv(w) && Later(w, later)
    requires forall a: World, b: World :: inv(a) && a.Steps(b) ==> inv(b)
    ensures inv(later)
  {
    ReachedStaysInside(StepRelation(), inv, w, later);
  }

  lemma LaterKeepsValid(w: World, later: World)
    requires w.Valid() && Later(w, later)
    ensures later.Valid()
  {
    forall a: World, b: World | a.Valid() && a.Steps(b) ensures b.Valid() {
      StepKeepsValid(a, b);
    }
    LaterKeeps((x: World) => x.Valid(), w, later);
  }

  /** Held processes stay held, and the history of processes only grows. */
  lemma LaterKeepsHeld(w: World, later: World, held: set<Pid>, known: set<Pid> := held)
    requires Later(w, later) && Held(w, held) && held <= known <= w.born.Keys
    ensures Held(later, held) && known <= later.born.Keys
  {
    LaterKeeps((x: World) => Held(x, held) && known <= x.born.Keys, w, later);
  }

  /** A process that left the table is not seen again. */
  lemma LaterKeepsGone(w: World, later: World, p: Pid)
    requires Later(w, later) && p in w.born && p !in w.procs
    ensures p in later.born && p !in later.procs
  {
    LaterKeeps((x: World) => p in x.born && p !in x.procs, w, later);
  }

  lemma LaterKeepsBorn(w: World, later: World, p: Pid)
    requires Later(w, later) && p in w.born
    ensures p in later.born && later.born[p] == w.born[p]
  {
    LaterKeeps((x: World) => p in x.born && x.born[p] == w.born[p], w, later);
  }

  /** A held process gains no child: whoever is its child later was it before. */
  lemma LaterAddsNoChild(w: World, later: World, parent: Pid, child: Pid)
    requires Later(w, later) && parent in w.born && !w.Runs(parent) && parent != INIT
    requires child in later.procs && later.procs[child].parent == parent
    ensures child in w.procs && w.procs[child].parent == parent
  {
    LaterKeeps((x: World) => parent in x.born && !x.Runs(parent)
      && forall c :: c in x.procs && x.procs[c].parent == parent ==> c in w.procs && w.procs[c].parent == parent,
      w, later);
  }

  lemma LaterIsOnward(w: World, between: World, later: World)
    requires Onward(w, between) && Later(between, later)
    ensures Onward(w, later)
  {
    ghost var reached := (x: World) => Onward(w, x);
    forall a: World, b: World | reached(a) && a.Steps(b) ensures reached(b) {
      ReachesFurther(ChangeRelation(), w, a, b);
    }
    LaterKeeps(reached, between, later);
  }

  lemma StopIsOnward(w: World, between: World, p: Pid)
    requires Onward(w, between)
    ensures Onward(w, between.Stop(p))
  {
    ReachesFurther(ChangeRelation(), w, between, between.Stop(p));
  }

  lemma OnwardFurther(w: World, between: World, later: World)
    requires Onward(w, between) && Onward(between, later)
    ensures Onward(w, later)
  {
    ReachesTransitive(ChangeRelation(), w, between, later);
  }

  /** Births are never undone. */
  lemma OnwardKeepsBirths(w: World, later: World, root: Pid, p: Pid)
    requires Onward(w, later) && Reaches(BirthParentOf(w), root, p)
    ensures Reaches(BirthParentOf(later), root, p)
  {
    ghost var grown := (x: World) => forall b :: b in w.born ==> b in x.born && x.born[b] == w.born[b];
    forall a: World, b: World | grown(a) && ChangeRelation()(a, b) ensures grown(b) {
    }
    ReachedStaysInside(ChangeRelation(), grown, w, later);
    ghost var below := (x: Pid) => Reaches(BirthParentOf(later), root, x);
    ReachesItself(BirthParentOf(later), root);
    forall a: Pid, b: Pid | below(a) && BirthParentOf(w)(a, b) ensures below(b) {
      ReachesFurther(BirthParentOf(later), root, a, b);
    }
    ReachedStaysInside(BirthParentOf(w), below, root, p);
  }

  /** The processes' own steps stop nobody. */
  lemma LaterStopsNobody(w: World, later: World)
    requires Later(w, later)
    ensures later.halted == w.halted
  {
    LaterKeeps((x: World) => x.halted == w.halted, w, later);
  }
}
