/** The process table of proc.c as a state machine.  Each action is one stretch of code that runs
    with ptable.lock held (or touches only the caller's own embryo), and the facts proved here
    hold after every sequence of actions on any number of CPUs. */
module ProcProtocol {

  const NPROC := 64

  datatype Status = UNUSED | EMBRYO | SLEEPING | RUNNABLE | RUNNING | ZOMBIE

  /** What a process sleeps on: nothing, the slot of a process (wait), or anything else. */
  datatype Chan = NoChan | ProcChan(slot: int) | OtherChan(n: nat)

  /** forking is the slot of the embryo this process is building inside fork, or -1; parent is a
      slot or -1. */
  datatype Proc = Proc(state: Status, pid: nat, parent: int, chan: Chan, killed: bool, forking: int,
                       createtime: nat, priority: int, burst: int)

  /** cpus[c] is the slot that runs on CPU c, or -1. */
  datatype Table = Table(procs: seq<Proc>, cpus: seq<int>, nextpid: nat, init: nat)

  datatype Action =
    | Alloc(c: nat, ticks: nat)
    | Abandon(c: nat)
    | Adopt(c: nat)
    | Start(c: nat)
    | Exit(c: nat)
    | Wait(c: nat)
    | Sleep(c: nat, chan: Chan)
    | Wakeup(chan: Chan)
    | Yield(c: nat)
    | Kill(pid: nat)
    | Dispatch(c: nat, p: nat)

  predicate Live(p: Proc) {
    p.state == SLEEPING || p.state == RUNNABLE || p.state == RUNNING
  }

  predicate Started(p: Proc) {
    Live(p) || p.state == ZOMBIE
  }

  // ----- the pieces of the actions -----

  /** What a scan of the table looks for. */
  datatype Query = IsUnused | IsZombieOf(parent: int) | HasPid(pid: nat)

  predicate Fits(p: Proc, f: Query) {
    match f
    case IsUnused => p.state == UNUSED
    case IsZombieOf(parent) => ZombieChild(p, parent)
    case HasPid(pid) => p.pid == pid
  }

  /** The lowest slot that fits, or the length. */
  ghost function First(procs: seq<Proc>, f: Query): (i: nat)
    ensures i <= |procs| && (i < |procs| ==> Fits(procs[i], f))
    ensures forall j :: 0 <= j < i ==> !Fits(procs[j], f)
    decreases |procs|
  {
    if |procs| == 0 then 0
    else
      var i := First(procs[..|procs| - 1], f);
      if i < |procs| - 1 then i else if Fits(procs[i], f) then i else i + 1
  }

  function Woken(p: Proc, chan: Chan): Proc {
    if p.state == SLEEPING && p.chan == chan then p.(state := RUNNABLE) else p
  }

  /** wakeup1. */
  ghost function Wake(procs: seq<Proc>, chan: Chan): (r: seq<Proc>)
    ensures |r| == |procs|
    ensures forall i :: 0 <= i < |procs| ==> r[i] == Woken(procs[i], chan)
  {
    seq(|procs|, i requires 0 <= i < |procs| => Woken(procs[i], chan))
  }

  function Adopted(p: Proc, old': int, new': int): Proc {
    if p.parent == old' then p.(parent := new') else p
  }

  /** The children of one process are handed to another. */
  ghost function Handed(procs: seq<Proc>, old': int, new': int): (r: seq<Proc>)
    ensures |r| == |procs|
    ensures forall i :: 0 <= i < |procs| ==> r[i] == Adopted(procs[i], old', new')
  {
    seq(|procs|, i requires 0 <= i < |procs| => Adopted(procs[i], old', new'))
  }

  predicate ZombieChild(p: Proc, parent: int) {
    p.parent == parent && p.state == ZOMBIE
  }

  ghost predicate HasZombie(procs: seq<Proc>, parent: int) {
    exists i :: 0 <= i < |procs| && ZombieChild(procs[i], parent)
  }

  ghost predicate HasChild(procs: seq<Proc>, parent: int) {
    exists i :: 0 <= i < |procs| && procs[i].parent == parent
  }

  /** exit, up to the switch: the parent is woken, children go to init, init is woken for zombies. */
  ghost function Exited(procs: seq<Proc>, p: nat, init: nat): (r: seq<Proc>)
    requires p < |procs|
    ensures |r| == |procs|
  {
    var woken := Wake(procs, ProcChan(procs[p].parent));
    var handed := Handed(woken, p, init);
    var all := if HasZombie(woken, p) then Wake(handed, ProcChan(init)) else handed;
    all[p := all[p].(state := ZOMBIE)]
  }

  function Reaped(p: Proc): Proc {
    p.(pid := 0, parent := -1, killed := false, state := UNUSED)
  }

  // ----- one action -----

  /** The slot running on CPU c. */
  predicate OnCpu(t: Table, c: nat) {
    c < |t.cpus| && 0 <= t.cpus[c] < |t.procs|
  }

  ghost predicate Enabled(t: Table, a: Action) {
    match a
    case Alloc(c, _) => OnCpu(t, c) && t.procs[t.cpus[c]].forking == -1
    case Abandon(c) => Building(t, c) && t.procs[t.procs[t.cpus[c]].forking].parent == -1
    case Adopt(c) => Building(t, c) && t.procs[t.procs[t.cpus[c]].forking].parent == -1
    case Start(c) => Building(t, c) && t.procs[t.procs[t.cpus[c]].forking].parent == t.cpus[c]
    case Exit(c) => OnCpu(t, c) && t.procs[t.cpus[c]].forking == -1 && t.cpus[c] != t.init
    case Wait(c) => OnCpu(t, c) && t.procs[t.cpus[c]].forking == -1
    case Sleep(c, chan) => OnCpu(t, c) && chan.OtherChan?
    case Wakeup(chan) => chan.OtherChan?
    case Yield(c) => OnCpu(t, c)
    case Kill(_) => true
    case Dispatch(c, p) => c < |t.cpus| && t.cpus[c] == -1 && p < |t.procs| && t.procs[p].state == RUNNABLE
  }

  predicate Building(t: Table, c: nat) {
    OnCpu(t, c) && 0 <= t.procs[t.cpus[c]].forking < |t.procs|
  }

  ghost function Next(t: Table, a: Action): Table
    requires Enabled(t, a)
  {
    match a
    case Alloc(c, ticks) => AllocNext(t, t.cpus[c], ticks)
    case Abandon(c) =>
      var p := t.cpus[c];
      var e := t.procs[p].forking;
      var procs := t.procs[e := t.procs[e].(state := UNUSED)];
      t.(procs := procs[p := procs[p].(forking := -1)])
    case Adopt(c) =>
      var e := t.procs[t.cpus[c]].forking;
      t.(procs := t.procs[e := t.procs[e].(parent := t.cpus[c])])
    case Start(c) =>
      var p := t.cpus[c];
      var e := t.procs[p].forking;
      var procs := t.procs[e := t.procs[e].(state := RUNNABLE)];
      t.(procs := procs[p := procs[p].(forking := -1)])
    case Exit(c) => t.(procs := Exited(t.procs, t.cpus[c], t.init), cpus := t.cpus[c := -1])
    case Wait(c) => WaitNext(t, c)
    case Sleep(c, chan) => Asleep(t, c, chan)
    case Wakeup(chan) => t.(procs := Wake(t.procs, chan))
    case Yield(c) =>
      var p := t.cpus[c];
      t.(procs := t.procs[p := t.procs[p].(state := RUNNABLE)], cpus := t.cpus[c := -1])
    case Kill(pid) => KillNext(t, pid)
    case Dispatch(c, p) =>
      t.(procs := t.procs[p := t.procs[p].(state := RUNNING, chan := NoChan)], cpus := t.cpus[c := p])
  }

  /** allocproc: the lowest unused slot becomes an embryo with a new pid. */
  ghost function AllocNext(t: Table, p: nat, ticks: nat): Table
    requires p < |t.procs|
  {
    var e := First(t.procs, IsUnused);
    if e == |t.procs| then t
    else
      var born := t.procs[e].(state := EMBRYO, pid := t.nextpid, createtime := ticks, priority := 60, burst := 5);
      var procs := t.procs[e := born];
      t.(procs := procs[p := procs[p].(forking := e)], nextpid := t.nextpid + 1)
  }

  ghost function Asleep(t: Table, c: nat, chan: Chan): Table
    requires OnCpu(t, c)
  {
    var p := t.cpus[c];
    t.(procs := t.procs[p := t.procs[p].(state := SLEEPING, chan := chan)], cpus := t.cpus[c := -1])
  }

  /** wait and waitx: the lowest zombie child is reaped; without one the caller sleeps on itself,
      or goes on when it is childless or killed. */
  ghost function WaitNext(t: Table, c: nat): Table
    requires OnCpu(t, c)
  {
    var p := t.cpus[c];
    var z := First(t.procs, IsZombieOf(p));
    if z < |t.procs| then t.(procs := t.procs[z := Reaped(t.procs[z])])
    else if !HasChild(t.procs, p) || t.procs[p].killed then t
    else Asleep(t, c, ProcChan(p))
  }

  /** kill: the lowest slot with that pid, in use or not. */
  ghost function KillNext(t: Table, pid: nat): Table {
    var i := First(t.procs, HasPid(pid));
    if i == |t.procs| then t
    else
      var q := t.procs[i].(killed := true);
      t.(procs := t.procs[i := if q.state == SLEEPING then q.(state := RUNNABLE) else q])
  }

  // ----- what holds after every action -----

  /** A started process other than init has a live parent; an embryo belongs to at most the process
      that is building it; only live processes build one. */
  ghost predicate SlotOk(t: Table, p: nat)
    requires |t.procs| == NPROC && p < NPROC
  {
    var q := t.procs[p];
    && (Started(q) && p != t.init ==> 0 <= q.parent < NPROC && q.parent != p && Live(t.procs[q.parent]))
    && (q.state == UNUSED ==> q.parent == -1)
    && (q.state == EMBRYO ==> q.parent == -1 || (0 <= q.parent < NPROC && t.procs[q.parent].forking == p))
    && (!Live(q) ==> q.forking == -1)
    && (q.forking != -1 ==> Builds(t, p, q.forking))
    && (q.state != UNUSED ==> 0 < q.pid < t.nextpid)
    && (p == t.init ==> Live(q) && q.parent == -1)
  }

  ghost predicate Builds(t: Table, p: nat, e: int)
    requires |t.procs| == NPROC
  {
    0 <= e < NPROC && t.procs[e].state == EMBRYO && (t.procs[e].parent == -1 || t.procs[e].parent == p)
  }

  /** Different slots: different pids, different embryos, and no zombie child under a process that
      sleeps in wait. */
  ghost predicate PairOk(t: Table, p: nat, q: nat)
    requires |t.procs| == NPROC && p < NPROC && q < NPROC
  {
    p != q ==>
      && (t.procs[p].state != UNUSED && t.procs[q].state != UNUSED ==> t.procs[p].pid != t.procs[q].pid)
      && (t.procs[p].forking != -1 ==> t.procs[p].forking != t.procs[q].forking)
      && (InWait(t.procs[p], p) ==> !ZombieChild(t.procs[q], p))
  }

  ghost predicate InWait(p: Proc, slot: int) {
    p.state == SLEEPING && p.chan == ProcChan(slot)
  }

  /** Running processes and busy CPUs match one to one. */
  ghost predicate CpusOk(t: Table)
    requires |t.procs| == NPROC
  {
    && (forall c :: 0 <= c < |t.cpus| && t.cpus[c] != -1 ==> 0 <= t.cpus[c] < NPROC && t.procs[t.cpus[c]].state == RUNNING)
    && (forall c, d :: 0 <= c < d < |t.cpus| && t.cpus[c] != -1 ==> t.cpus[c] != t.cpus[d])
    && (forall p :: 0 <= p < NPROC && t.procs[p].state == RUNNING ==> p in t.cpus)
  }

  ghost predicate SlotsOk(t: Table)
    requires |t.procs| == NPROC
  {
    forall p :: 0 <= p < NPROC ==> SlotOk(t, p)
  }

  ghost predicate PairsOk(t: Table)
    requires |t.procs| == NPROC
  {
    forall p, q :: 0 <= p < NPROC && 0 <= q < NPROC ==> PairOk(t, p, q)
  }

  ghost predicate Inv(t: Table) {
    && |t.procs| == NPROC && t.init < NPROC && t.nextpid > 0
    && SlotsOk(t) && PairsOk(t) && CpusOk(t)
  }

  // ----- actions that leave parents and embryos alone -----

  /** Only the status (live to live), the channel and the killed flag changed. */
  ghost predicate Nudged(p: Proc, q: Proc) {
    && q == p.(state := q.state, chan := q.chan, killed := q.killed)
    && (q.state == p.state || (Live(p) && Live(q)))
  }

  ghost predicate AllNudged(t: Table, u: Table) {
    && |u.procs| == |t.procs| && u.init == t.init && u.nextpid == t.nextpid
    && forall i :: 0 <= i < |t.procs| ==> Nudged(t.procs[i], u.procs[i])
  }

  lemma NudgedSlots(t: Table, u: Table)
    requires Inv(t) && AllNudged(t, u)
    ensures SlotsOk(u)
  {
    hide CpusOk, PairsOk;
    forall p | 0 <= p < NPROC ensures SlotOk(u, p) {
      assert SlotOk(t, p);
    }
  }

  lemma NudgedPairs(t: Table, u: Table)
    requires Inv(t) && AllNudged(t, u)
    requires forall p :: 0 <= p < NPROC && InWait(u.procs[p], p) ==> InWait(t.procs[p], p) || !HasZombie(t.procs, p)
    ensures PairsOk(u)
  {
    hide CpusOk, SlotsOk;
    forall p, q | 0 <= p < NPROC && 0 <= q < NPROC ensures PairOk(u, p, q) {
      assert PairOk(t, p, q);
      assert Nudged(t.procs[p], u.procs[p]) && Nudged(t.procs[q], u.procs[q]);
    }
  }

  lemma WakeupKeeps(t: Table, chan: Chan)
    requires Inv(t)
    ensures Inv(t.(procs := Wake(t.procs, chan)))
  {
    var u := t.(procs := Wake(t.procs, chan));
    assert AllNudged(t, u);
    NudgedSlots(t, u);
    NudgedPairs(t, u);
  }

  lemma KillKeeps(t: Table, pid: nat)
    requires Inv(t)
    ensures Inv(KillNext(t, pid))
  {
    var u := KillNext(t, pid);
    assert AllNudged(t, u);
    NudgedSlots(t, u);
    NudgedPairs(t, u);
  }

  lemma YieldKeeps(t: Table, c: nat)
    requires Inv(t) && Enabled(t, Yield(c))
    ensures Inv(Next(t, Yield(c)))
  {
    var u := Next(t, Yield(c));
    assert AllNudged(t, u);
    NudgedSlots(t, u);
    NudgedPairs(t, u);
    CpuLeft(t, u, c);
  }

  /** A CPU whose process stops running becomes idle. */
  lemma CpuLeft(t: Table, u: Table, c: nat)
    requires |t.procs| == NPROC && |u.procs| == NPROC && CpusOk(t) && OnCpu(t, c) && u.cpus == t.cpus[c := -1]
    requires u.procs[t.cpus[c]].state != RUNNING
    requires forall i :: 0 <= i < NPROC && i != t.cpus[c] ==> (u.procs[i].state == RUNNING <==> t.procs[i].state == RUNNING)
    ensures CpusOk(u)
  {
    forall p | 0 <= p < NPROC && u.procs[p].state == RUNNING ensures p in u.cpus {
      var d :| 0 <= d < |t.cpus| && t.cpus[d] == p;
      assert u.cpus[d] == p;
    }
  }

  lemma SleepKeeps(t: Table, c: nat, chan: Chan)
    requires Inv(t) && OnCpu(t, c)
    requires chan.OtherChan? || (chan == ProcChan(t.cpus[c]) && !HasZombie(t.procs, t.cpus[c]))
    ensures Inv(Asleep(t, c, chan))
  {
    var u := Asleep(t, c, chan);
    assert AllNudged(t, u);
    NudgedSlots(t, u);
    NudgedPairs(t, u);
    CpuLeft(t, u, c);
  }

  lemma DispatchKeeps(t: Table, c: nat, p: nat)
    requires Inv(t) && Enabled(t, Dispatch(c, p))
    ensures Inv(Next(t, Dispatch(c, p)))
  {
    var u := Next(t, Dispatch(c, p));
    assert AllNudged(t, u);
    NudgedSlots(t, u);
    NudgedPairs(t, u);
    hide SlotsOk, PairsOk;
    forall q | 0 <= q < NPROC && u.procs[q].state == RUNNING ensures q in u.cpus {
      if q == p { assert u.cpus[c] == q; } else {
        var d :| 0 <= d < |t.cpus| && t.cpus[d] == q;
        assert u.cpus[d] == q;
      }
    }
  }

  // ----- fork -----

  /** CPUs see no difference while nobody starts or stops running. */
  lemma CpusSame(t: Table, u: Table)
    requires |t.procs| == NPROC && |u.procs| == NPROC && CpusOk(t) && u.cpus == t.cpus
    requires forall i :: 0 <= i < NPROC ==> (u.procs[i].state == RUNNING <==> t.procs[i].state == RUNNING)
    ensures CpusOk(u)
  {
  }

  /** What allocproc does to the table. */
  ghost predicate Allocated(t: Table, u: Table, p: nat, e: nat)
    requires |t.procs| == NPROC && |u.procs| == NPROC && p < NPROC && e < NPROC
  {
    && e != p && t.procs[e].state == UNUSED && t.procs[p].state == RUNNING && t.procs[p].forking == -1
    && u.init == t.init && u.nextpid == t.nextpid + 1
    && u.procs[e].state == EMBRYO && u.procs[e].pid == t.nextpid
    && u.procs[e].parent == t.procs[e].parent && u.procs[e].forking == t.procs[e].forking
    && u.procs[p] == t.procs[p].(forking := e)
    && forall i :: 0 <= i < NPROC && i != e && i != p ==> u.procs[i] == t.procs[i]
  }

  lemma AllocSlot(t: Table, u: Table, p: nat, e: nat, i: nat)
    requires Inv(t) && |u.procs| == NPROC && p < NPROC && e < NPROC && Allocated(t, u, p, e) && i < NPROC
    ensures SlotOk(u, i)
  {
    hide CpusOk, PairsOk;
    assert SlotOk(t, i) && SlotOk(t, e) && SlotOk(t, p);
  }

  lemma AllocPair(t: Table, u: Table, p: nat, e: nat, i: nat, j: nat)
    requires Inv(t) && |u.procs| == NPROC && p < NPROC && e < NPROC && Allocated(t, u, p, e) && i < NPROC && j < NPROC
    ensures PairOk(u, i, j)
  {
    hide CpusOk;
    assert PairOk(t, i, j) && SlotOk(t, i) && SlotOk(t, j) && SlotOk(t, e);
  }

  lemma AllocKeeps(t: Table, p: nat, ticks: nat)
    requires Inv(t) && p < NPROC && t.procs[p].state == RUNNING && t.procs[p].forking == -1
    ensures Inv(AllocNext(t, p, ticks))
  {
    hide SlotOk, PairOk;
    var u := AllocNext(t, p, ticks);
    var e := First(t.procs, IsUnused);
    if e < NPROC {
      assert Allocated(t, u, p, e);
      CpusSame(t, u);
      hide CpusOk, Allocated;
      forall i | 0 <= i < NPROC ensures SlotOk(u, i) { AllocSlot(t, u, p, e, i); }
      forall i, j | 0 <= i < NPROC && 0 <= j < NPROC ensures PairOk(u, i, j) { AllocPair(t, u, p, e, i, j); }
    }
  }

  /** The embryo e of p changes status or parent; p may be done with it. */
  ghost predicate Embryo(t: Table, u: Table, p: nat, e: int)
    requires |t.procs| == NPROC && |u.procs| == NPROC && p < NPROC
  {
    && 0 <= e < NPROC && e != p && t.procs[p].state == RUNNING && t.procs[p].forking == e
    && u.init == t.init && u.nextpid == t.nextpid
    && u.procs[e] == t.procs[e].(state := u.procs[e].state, parent := u.procs[e].parent)
    && u.procs[p] == t.procs[p].(forking := u.procs[p].forking)
    && (|| (u.procs[e].state == UNUSED && u.procs[e].parent == t.procs[e].parent == -1 && u.procs[p].forking == -1)
        || (u.procs[e].state == EMBRYO && u.procs[e].parent == p && u.procs[p].forking == e)
        || (u.procs[e].state == RUNNABLE && u.procs[e].parent == p && u.procs[p].forking == -1))
    && forall i :: 0 <= i < NPROC && i != e && i != p ==> u.procs[i] == t.procs[i]
  }

  lemma EmbryoSlot(t: Table, u: Table, p: nat, e: int, i: nat)
    requires Inv(t) && |u.procs| == NPROC && p < NPROC && Embryo(t, u, p, e) && i < NPROC
    ensures SlotOk(u, i)
  {
    hide CpusOk;
    assert SlotOk(t, i) && PairOk(t, p, i) && SlotOk(t, e) && SlotOk(t, p);
  }

  lemma EmbryoPair(t: Table, u: Table, p: nat, e: int, i: nat, j: nat)
    requires Inv(t) && |u.procs| == NPROC && p < NPROC && Embryo(t, u, p, e) && i < NPROC && j < NPROC
    ensures PairOk(u, i, j)
  {
    hide CpusOk;
    assert PairOk(t, i, j) && SlotOk(t, p) && SlotOk(t, e);
  }

  lemma EmbryoKeeps(t: Table, u: Table, p: nat, e: int)
    requires Inv(t) && |u.procs| == NPROC && p < NPROC && Embryo(t, u, p, e) && u.cpus == t.cpus
    ensures Inv(u)
  {
    assert t.procs[e].state != RUNNING by { assert SlotOk(t, p); }
    hide SlotOk, PairOk;
    CpusSame(t, u);
    hide CpusOk, Embryo;
    assert u.init == t.init && u.nextpid == t.nextpid by { EmbryoConstants(t, u, p, e); }
    forall i | 0 <= i < NPROC ensures SlotOk(u, i) { EmbryoSlot(t, u, p, e, i); }
    forall i, j | 0 <= i < NPROC && 0 <= j < NPROC ensures PairOk(u, i, j) { EmbryoPair(t, u, p, e, i, j); }
  }

  lemma EmbryoConstants(t: Table, u: Table, p: nat, e: int)
    requires |t.procs| == NPROC && |u.procs| == NPROC && p < NPROC && Embryo(t, u, p, e)
    ensures u.init == t.init && u.nextpid == t.nextpid
  {
  }

  lemma BuildKeeps(t: Table, a: Action)
    requires Inv(t) && Enabled(t, a) && (a.Abandon? || a.Adopt? || a.Start?)
    ensures Inv(Next(t, a))
  {
    var p := t.cpus[a.c];
    var e := t.procs[p].forking;
    assert t.procs[p].state == RUNNING;
    assert SlotOk(t, p) && Builds(t, p, e);
    hide CpusOk, SlotsOk, PairsOk;
    assert Embryo(t, Next(t, a), p, e);
    EmbryoKeeps(t, Next(t, a), p, e);
  }

  // ----- exit and wait -----

  /** What exit does to one slot. */
  lemma ExitedAt(procs: seq<Proc>, p: nat, init: nat, i: nat)
    requires p < |procs| && i < |procs| && procs[p].state == RUNNING && p != init
    ensures var r := Exited(procs, p, init)[i];
            && r == procs[i].(state := r.state, parent := r.parent)
            && r.parent == (if procs[i].parent == p then init else procs[i].parent)
            && (i == p ==> r.state == ZOMBIE)
            && (i != p ==> r.state == procs[i].state || (procs[i].state == SLEEPING && r.state == RUNNABLE))
            && (i != p && InWait(r, procs[p].parent) ==> false)
            && (i != p && HasZombie(procs, p) && InWait(r, init) ==> false)
  {
    var woken := Wake(procs, ProcChan(procs[p].parent));
    if HasZombie(procs, p) {
      var k :| 0 <= k < |procs| && ZombieChild(procs[k], p);
      assert ZombieChild(woken[k], p);
    }
  }

  lemma ExitSlot(t: Table, p: nat, u: Table, i: nat)
    requires Inv(t) && p < NPROC && t.procs[p].state == RUNNING && t.procs[p].forking == -1 && p != t.init && i < NPROC
    requires u.procs == Exited(t.procs, p, t.init) && u.init == t.init && u.nextpid == t.nextpid
    ensures SlotOk(u, i)
  {
    hide CpusOk, PairsOk, Exited, HasZombie;
    assert SlotOk(t, i) && SlotOk(t, p) && SlotOk(t, t.init);
    ExitedAt(t.procs, p, t.init, i);
    ExitedAt(t.procs, p, t.init, t.init);
    var par := t.procs[i].parent;
    if 0 <= par < NPROC { ExitedAt(t.procs, p, t.init, par); }
    var e := t.procs[i].forking;
    if e != -1 {
      assert Builds(t, i, e) && SlotOk(t, e);
      ExitedAt(t.procs, p, t.init, e);
    }
  }

  lemma ExitPair(t: Table, p: nat, u: Table, i: nat, j: nat)
    requires Inv(t) && p < NPROC && t.procs[p].state == RUNNING && p != t.init && i < NPROC && j < NPROC
    requires u.procs == Exited(t.procs, p, t.init) && u.init == t.init && u.nextpid == t.nextpid
    ensures PairOk(u, i, j)
  {
    hide CpusOk, Exited;
    assert PairOk(t, i, j) && SlotOk(t, p);
    ExitedAt(t.procs, p, t.init, i);
    ExitedAt(t.procs, p, t.init, j);
    assert ZombieChild(t.procs[j], p) ==> HasZombie(t.procs, p);
  }

  lemma ExitKeeps(t: Table, c: nat)
    requires Inv(t) && Enabled(t, Exit(c))
    ensures Inv(Next(t, Exit(c)))
  {
    hide Exited, SlotOk, PairOk;
    var u := Next(t, Exit(c));
    var p := t.cpus[c];
    assert t.procs[p].state == RUNNING;
    forall i | 0 <= i < NPROC ensures SlotOk(u, i) { ExitSlot(t, p, u, i); }
    forall i, j | 0 <= i < NPROC && 0 <= j < NPROC ensures PairOk(u, i, j) { ExitPair(t, p, u, i, j); }
    forall i | 0 <= i < NPROC
      ensures i == p ==> u.procs[i].state != RUNNING
      ensures i != p ==> (u.procs[i].state == RUNNING <==> t.procs[i].state == RUNNING)
    {
      ExitedAt(t.procs, p, t.init, i);
    }
    CpuLeft(t, u, c);
  }

  lemma ReapKeeps(t: Table, p: nat, z: nat)
    requires Inv(t) && p < NPROC && z < NPROC && ZombieChild(t.procs[z], p)
    ensures Inv(t.(procs := t.procs[z := Reaped(t.procs[z])]))
  {
    var u := t.(procs := t.procs[z := Reaped(t.procs[z])]);
    assert SlotOk(t, z);
    CpusSame(t, u);
    hide CpusOk;
    forall i | 0 <= i < NPROC ensures SlotOk(u, i) {
      assert SlotOk(t, i);
    }
    forall i, j | 0 <= i < NPROC && 0 <= j < NPROC ensures PairOk(u, i, j) {
      assert PairOk(t, i, j);
    }
  }

  lemma WaitKeeps(t: Table, c: nat)
    requires Inv(t) && Enabled(t, Wait(c))
    ensures Inv(Next(t, Wait(c)))
  {
    hide CpusOk, SlotsOk, PairsOk, Inv;
    assert |t.procs| == NPROC by { InvSized(t); }
    var p := t.cpus[c];
    var z := First(t.procs, IsZombieOf(p));
    if z < NPROC {
      ReapKeeps(t, p, z);
    } else if HasChild(t.procs, p) && !t.procs[p].killed {
      assert forall i :: 0 <= i < NPROC ==> !Fits(t.procs[i], IsZombieOf(p));
      SleepKeeps(t, c, ProcChan(p));
    }
  }

  lemma InvSized(t: Table)
    requires Inv(t)
    ensures |t.procs| == NPROC
  {
  }

  // ----- every run -----

  lemma StepKeeps(t: Table, a: Action)
    requires Inv(t) && Enabled(t, a)
    ensures Inv(Next(t, a))
  {
    match a
    case Alloc(c, ticks) => AllocKeeps(t, t.cpus[c], ticks);
    case Abandon(c) => BuildKeeps(t, a);
    case Adopt(c) => BuildKeeps(t, a);
    case Start(c) => BuildKeeps(t, a);
    case Exit(c) => ExitKeeps(t, c);
    case Wait(c) => WaitKeeps(t, c);
    case Sleep(c, chan) => SleepKeeps(t, c, chan);
    case Wakeup(chan) => WakeupKeeps(t, chan);
    case Yield(c) => YieldKeeps(t, c);
    case Kill(pid) => KillKeeps(t, pid);
    case Dispatch(c, p) => DispatchKeeps(t, c, p);
  }

  /** After userinit: one runnable process, no CPU busy. */
  ghost predicate Booted(t: Table) {
    && |t.procs| == NPROC && t.init < NPROC && t.nextpid == 2
    && (forall c :: 0 <= c < |t.cpus| ==> t.cpus[c] == -1)
    && (forall p :: 0 <= p < NPROC ==> t.procs[p].parent == -1 && t.procs[p].forking == -1)
    && (forall p :: 0 <= p < NPROC && p != t.init ==> t.procs[p].state == UNUSED && t.procs[p].pid == 0)
    && (forall p :: 0 <= p < NPROC ==> !t.procs[p].killed)
    && t.procs[t.init].state == RUNNABLE && t.procs[t.init].pid == 1
  }

  ghost predicate Run(tables: seq<Table>, actions: seq<Action>) {
    && |tables| == |actions| + 1
    && Booted(tables[0])
    && forall i :: 0 <= i < |actions| ==> Enabled(tables[i], actions[i]) && tables[i + 1] == Next(tables[i], actions[i])
  }

  lemma {:induction false} RunKeeps(tables: seq<Table>, actions: seq<Action>, i: nat)
    requires Run(tables, actions) && i < |tables|
    ensures Inv(tables[i])
  {
    if i > 0 {
      RunKeeps(tables, actions, i - 1);
      hide Inv, Next, Enabled, Booted;
      assert Enabled(tables[i - 1], actions[i - 1]) && tables[i] == Next(tables[i - 1], actions[i - 1]);
      StepKeeps(tables[i - 1], actions[i - 1]);
    }
  }

  /** In every reachable table: parents of started processes are alive, nobody sleeps in wait over a
      zombie child, RUNNING means exactly one CPU, and pids in use are distinct. */
  lemma ReachableTable(tables: seq<Table>, actions: seq<Action>, i: nat, p: nat, q: nat)
    requires Run(tables, actions) && i < |tables| && p < NPROC && q < NPROC && p != q
    ensures var t := tables[i];
            && |t.procs| == NPROC
            && (Started(t.procs[p]) && p != t.init ==> 0 <= t.procs[p].parent < NPROC && Live(t.procs[t.procs[p].parent]))
            && (t.procs[p].state == SLEEPING && t.procs[p].chan == ProcChan(p) ==>
                  !(t.procs[q].state == ZOMBIE && t.procs[q].parent == p))
            && (t.procs[p].state == RUNNING <==> exists c :: 0 <= c < |t.cpus| && t.cpus[c] == p)
            && (forall c, d :: 0 <= c < d < |t.cpus| && t.cpus[c] == p ==> t.cpus[d] != p)
            && (t.procs[p].state != UNUSED && t.procs[q].state != UNUSED ==> t.procs[p].pid != t.procs[q].pid)
  {
    RunKeeps(tables, actions, i);
    assert SlotOk(tables[i], p) && PairOk(tables[i], p, q);
  }

  // ----- born killed -----

  /** kill reaches slot p, the lowest one with the pid. */
  ghost predicate Hits(t: Table, a: Action, p: nat) {
    a.Kill? && p < |t.procs| && First(t.procs, HasPid(a.pid)) == p
  }

  /** wait reaps slot p. */
  ghost predicate Reaps(t: Table, a: Action, p: nat) {
    a.Wait? && OnCpu(t, a.c) && p < |t.procs| && First(t.procs, IsZombieOf(t.cpus[a.c])) == p
  }

  /** fork gives the embryo in slot p up. */
  ghost predicate Abandons(t: Table, a: Action, p: nat) {
    a.Abandon? && Building(t, a.c) && t.procs[t.cpus[a.c]].forking == p
  }

  /** Only kill sets the flag and only wait clears it. */
  lemma FlagStep(t: Table, a: Action, p: nat)
    requires Inv(t) && Enabled(t, a) && p < NPROC
    ensures |Next(t, a).procs| == NPROC
    ensures Next(t, a).procs[p].killed <==> Hits(t, a, p) || (t.procs[p].killed && !Reaps(t, a, p))
  {
    hide CpusOk, SlotsOk, PairsOk, First, HasZombie, HasChild;
  }

  /** Kill hit slot p at step k, and no wait reaped it from then to state i. */
  ghost predicate FlaggedSince(tables: seq<Table>, actions: seq<Action>, p: nat, k: nat, i: nat)
    requires |tables| == |actions| + 1 && i <= |actions|
  {
    k < i && Hits(tables[k], actions[k], p) && forall m :: k < m < i ==> !Reaps(tables[m], actions[m], p)
  }

  /** Some kill hit slot p, and no wait reaped it since. */
  ghost predicate Flagged(tables: seq<Table>, actions: seq<Action>, p: nat, i: nat)
    requires |tables| == |actions| + 1 && i <= |actions|
  {
    exists k :: 0 <= k < i && FlaggedSince(tables, actions, p, k, i)
  }

  lemma FlaggedNext(tables: seq<Table>, actions: seq<Action>, p: nat, i: nat)
    requires |tables| == |actions| + 1 && 0 < i <= |actions|
    ensures Flagged(tables, actions, p, i) <==>
            Hits(tables[i - 1], actions[i - 1], p)
            || (Flagged(tables, actions, p, i - 1) && !Reaps(tables[i - 1], actions[i - 1], p))
  {
    hide Hits, Reaps;
    var t, a := tables[i - 1], actions[i - 1];
    if Hits(t, a, p) {
      assert FlaggedSince(tables, actions, p, i - 1, i);
    } else {
      if Flagged(tables, actions, p, i) {
        var k :| 0 <= k < i && FlaggedSince(tables, actions, p, k, i);
        assert FlaggedSince(tables, actions, p, k, i - 1) && !Reaps(t, a, p);
      }
      if Flagged(tables, actions, p, i - 1) && !Reaps(t, a, p) {
        var k :| 0 <= k < i - 1 && FlaggedSince(tables, actions, p, k, i - 1);
        assert FlaggedSince(tables, actions, p, k, i);
      }
    }
  }

  lemma {:induction false} FlagHistory(tables: seq<Table>, actions: seq<Action>, i: nat, p: nat)
    requires Run(tables, actions) && i < |tables| && p < NPROC
    ensures |tables[i].procs| == NPROC
    ensures tables[i].procs[p].killed <==> Flagged(tables, actions, p, i)
  {
    hide Inv, Next, Enabled, Hits, Reaps;
    if i == 0 {
    } else {
      var t, a := tables[i - 1], actions[i - 1];
      FlagHistory(tables, actions, i - 1, p);
      RunKeeps(tables, actions, i - 1);
      assert Enabled(t, a) && tables[i] == Next(t, a);
      hide Run, Flagged;
      FlagStep(t, a, p);
      FlaggedNext(tables, actions, p, i);
    }
  }

  /** How the status and pid of slot p can change: an unused slot becomes an embryo, an embryo is
      started or abandoned with its pid left behind, and only wait ends what was started. */
  ghost predicate Evolves(t: Table, a: Action, u: Table, p: nat)
    requires |t.procs| == |u.procs| == NPROC && p < NPROC
  {
    var q, r := t.procs[p], u.procs[p];
    && (Reaps(t, a, p) ==> Started(q) && r.state == UNUSED && r.pid == 0)
    && (q.state == UNUSED ==> r.state == EMBRYO || (r.state == UNUSED && r.pid == q.pid))
    && (q.state == EMBRYO ==> r.pid == q.pid && (r.state == EMBRYO || Started(r) || (r.state == UNUSED && Abandons(t, a, p))))
    && (Started(q) && !Reaps(t, a, p) ==> r.pid == q.pid && Started(r))
  }

  lemma NudgedEvolves(t: Table, a: Action, u: Table, p: nat)
    requires |t.procs| == NPROC && p < NPROC && AllNudged(t, u) && !a.Wait?
    ensures Evolves(t, a, u, p)
  {
    assert Nudged(t.procs[p], u.procs[p]);
  }

  lemma BuildEvolves(t: Table, a: Action, p: nat)
    requires Inv(t) && Enabled(t, a) && p < NPROC && (a.Abandon? || a.Adopt? || a.Start?)
    ensures |Next(t, a).procs| == NPROC && Evolves(t, a, Next(t, a), p)
  {
    hide PairsOk;
    var c := t.cpus[a.c];
    assert t.procs[c].state == RUNNING;
    assert SlotOk(t, c) && Builds(t, c, t.procs[c].forking);
    hide CpusOk, SlotsOk;
  }

  lemma ExitEvolves(t: Table, c: nat, p: nat)
    requires Inv(t) && Enabled(t, Exit(c)) && p < NPROC
    ensures |Next(t, Exit(c)).procs| == NPROC && Evolves(t, Exit(c), Next(t, Exit(c)), p)
  {
    assert t.procs[t.cpus[c]].state == RUNNING;
    hide Inv, Exited;
    ExitedAt(t.procs, t.cpus[c], t.init, p);
  }

  lemma WaitEvolves(t: Table, c: nat, p: nat)
    requires Inv(t) && Enabled(t, Wait(c)) && p < NPROC
    ensures |Next(t, Wait(c)).procs| == NPROC && Evolves(t, Wait(c), Next(t, Wait(c)), p)
  {
    assert t.procs[t.cpus[c]].state == RUNNING;
    hide Inv, HasChild;
    InvSized(t);
    var z := First(t.procs, IsZombieOf(t.cpus[c]));
    if z < NPROC { assert Fits(t.procs[z], IsZombieOf(t.cpus[c])); }
  }

  lemma StepEvolves(t: Table, a: Action, p: nat)
    requires Inv(t) && Enabled(t, a) && p < NPROC
    ensures |Next(t, a).procs| == NPROC && Evolves(t, a, Next(t, a), p)
  {
    hide PairsOk, SlotsOk, Evolves, HasChild, HasZombie;
    match a
    case Alloc(c, ticks) => AllocEvolves(t, c, ticks, p);
    case Abandon(c) => BuildEvolves(t, a, p);
    case Adopt(c) => BuildEvolves(t, a, p);
    case Start(c) => BuildEvolves(t, a, p);
    case Exit(c) => ExitEvolves(t, c, p);
    case Wait(c) => WaitEvolves(t, c, p);
    case Sleep(c, chan) =>
      assert AllNudged(t, Next(t, a));
      NudgedEvolves(t, a, Next(t, a), p);
    case Wakeup(chan) =>
      assert AllNudged(t, Next(t, a));
      NudgedEvolves(t, a, Next(t, a), p);
    case Yield(c) =>
      assert AllNudged(t, Next(t, a));
      NudgedEvolves(t, a, Next(t, a), p);
    case Kill(pid) =>
      assert AllNudged(t, Next(t, a));
      NudgedEvolves(t, a, Next(t, a), p);
    case Dispatch(c, q) =>
      assert AllNudged(t, Next(t, a));
      NudgedEvolves(t, a, Next(t, a), p);
  }

  lemma AllocEvolves(t: Table, c: nat, ticks: nat, p: nat)
    requires Inv(t) && Enabled(t, Alloc(c, ticks)) && p < NPROC
    ensures |Next(t, Alloc(c, ticks)).procs| == NPROC && Evolves(t, Alloc(c, ticks), Next(t, Alloc(c, ticks)), p)
  {
    assert t.procs[t.cpus[c]].state == RUNNING;
    hide Inv;
    InvSized(t);
    var e := First(t.procs, IsUnused);
    if e < NPROC { assert Fits(t.procs[e], IsUnused); }
  }

  /** A pid left in an unused slot is that of an embryo abandoned there. */
  lemma {:induction false} StalePid(tables: seq<Table>, actions: seq<Action>, i: nat, p: nat)
    requires Run(tables, actions) && i < |tables| && p < NPROC
    ensures |tables[i].procs| == NPROC
    ensures tables[i].procs[p].state == UNUSED && tables[i].procs[p].pid != 0 ==>
              exists m :: 0 <= m < i && AbandonedWith(tables, actions, p, m, tables[i].procs[p].pid)
  {
    RunKeeps(tables, actions, i);
    InvSized(tables[i]);
    hide Inv, Next, Enabled, Reaps, Abandons;
    if i > 0 {
      RunKeeps(tables, actions, i - 1);
      StalePid(tables, actions, i - 1, p);
      assert Enabled(tables[i - 1], actions[i - 1]) && tables[i] == Next(tables[i - 1], actions[i - 1]);
      StepEvolves(tables[i - 1], actions[i - 1], p);
      var q, r := tables[i - 1].procs[p], tables[i].procs[p];
      if r.state == UNUSED && r.pid != 0 {
        if q.state == UNUSED {
          var m :| 0 <= m < i - 1 && AbandonedWith(tables, actions, p, m, q.pid);
        } else {
          assert AbandonedWith(tables, actions, p, i - 1, r.pid);
        }
      }
    }
  }

  ghost predicate AbandonedWith(tables: seq<Table>, actions: seq<Action>, p: nat, m: nat, pid: nat)
    requires |tables| == |actions| + 1 && m < |actions|
  {
    Abandons(tables[m], actions[m], p) && p < |tables[m].procs| && tables[m].procs[p].pid == pid
  }

  /** In use with the pid, started, or the embryo with the pid abandoned between k and i. */
  ghost predicate Fate(tables: seq<Table>, actions: seq<Action>, p: nat, k: nat, i: nat, pid: nat)
    requires |tables| == |actions| + 1 && i <= |actions| && p < |tables[i].procs|
  {
    || (tables[i].procs[p].state == EMBRYO && tables[i].procs[p].pid == pid)
    || Started(tables[i].procs[p])
    || exists m :: k <= m < i && AbandonedWith(tables, actions, p, m, pid)
  }

  lemma FateStep(tables: seq<Table>, actions: seq<Action>, p: nat, k: nat, i: nat, pid: nat)
    requires |tables| == |actions| + 1 && k < i <= |actions| && p < NPROC
    requires |tables[i - 1].procs| == |tables[i].procs| == NPROC
    requires Fate(tables, actions, p, k, i - 1, pid)
    requires Evolves(tables[i - 1], actions[i - 1], tables[i], p) && !Reaps(tables[i - 1], actions[i - 1], p)
    ensures Fate(tables, actions, p, k, i, pid)
  {
    hide Reaps, Abandons;
    if m :| k <= m < i - 1 && AbandonedWith(tables, actions, p, m, pid) {
    } else if Abandons(tables[i - 1], actions[i - 1], p) && tables[i - 1].procs[p].pid == pid {
      assert AbandonedWith(tables, actions, p, i - 1, pid);
    }
  }

  /** A slot in use at k that no wait reaps is in use at i, or its embryo was abandoned on the way. */
  lemma {:induction false} SlotFate(tables: seq<Table>, actions: seq<Action>, p: nat, k: nat, i: nat)
    requires Run(tables, actions) && k <= i < |tables| && p < NPROC
    requires |tables[k].procs| == NPROC && tables[k].procs[p].state != UNUSED
    requires forall m :: k <= m < i ==> !Reaps(tables[m], actions[m], p)
    ensures |tables[i].procs| == NPROC && Fate(tables, actions, p, k, i, tables[k].procs[p].pid)
    decreases i - k
  {
    hide Inv, Next, Enabled, Reaps, Booted;
    if i > k {
      SlotFate(tables, actions, p, k, i - 1);
      RunKeeps(tables, actions, i - 1);
      assert Enabled(tables[i - 1], actions[i - 1]) && tables[i] == Next(tables[i - 1], actions[i - 1]);
      hide Run, Fate, Evolves;
      StepEvolves(tables[i - 1], actions[i - 1], p);
      FateStep(tables, actions, p, k, i, tables[k].procs[p].pid);
    }
  }

  /** An unused slot that carries the flag was hit by kill(0), or by kill with the pid of an embryo
      that fork abandoned in the slot. */
  lemma FlaggedUnused(tables: seq<Table>, actions: seq<Action>, i: nat, p: nat) returns (k: nat)
    requires Run(tables, actions) && i < |tables| && p < NPROC && |tables[i].procs| == NPROC
    requires tables[i].procs[p].state == UNUSED && tables[i].procs[p].killed
    ensures FlaggedSince(tables, actions, p, k, i)
    ensures actions[k].pid == 0 || exists m :: 0 <= m < i && AbandonedWith(tables, actions, p, m, actions[k].pid)
  {
    hide Inv, Next, Enabled, Reaps, Abandons;
    FlagHistory(tables, actions, i, p);
    k :| 0 <= k < i && FlaggedSince(tables, actions, p, k, i);
    hide Run, Flagged;
    RunKeeps(tables, actions, k);
    InvSized(tables[k]);
    var pid := tables[k].procs[p].pid;
    assert Fits(tables[k].procs[p], HasPid(actions[k].pid));
    if tables[k].procs[p].state == UNUSED {
      StalePid(tables, actions, k, p);
      if pid != 0 {
        var m :| 0 <= m < k && AbandonedWith(tables, actions, p, m, pid);
      }
    } else {
      assert !Reaps(tables[k], actions[k], p) by { KillReapsNothing(tables[k], actions[k], p); }
      SlotFate(tables, actions, p, k, i);
      var m :| k <= m < i && AbandonedWith(tables, actions, p, m, pid);
    }
  }

  lemma KillReapsNothing(t: Table, a: Action, p: nat)
    requires a.Kill?
    ensures !Reaps(t, a, p)
  {
  }

  /** In every run: the process allocproc starts to build is born killed exactly when some kill hit
      its slot and no wait reaped the slot since. */
  lemma BornKilledIff(tables: seq<Table>, actions: seq<Action>, i: nat)
    requires Run(tables, actions) && i < |actions| && actions[i].Alloc?
    requires First(tables[i].procs, IsUnused) < |tables[i].procs|
    ensures var e := First(tables[i].procs, IsUnused);
            && e < |tables[i + 1].procs| && tables[i + 1].procs[e].state == EMBRYO
            && (tables[i + 1].procs[e].killed <==> Flagged(tables, actions, e, i))
  {
    var t, e := tables[i], First(tables[i].procs, IsUnused);
    RunKeeps(tables, actions, i);
    InvSized(t);
    FlagHistory(tables, actions, i, e);
    assert Enabled(t, actions[i]) && tables[i + 1] == Next(t, actions[i]);
    var p := t.cpus[actions[i].c];
    assert t.procs[p].state == RUNNING;
    hide Inv, Flagged;
    assert Fits(t.procs[e], IsUnused) && e != p;
  }

  /** init runs on cpu 0 and is not forking, and e is the lowest unused slot. */
  ghost predicate Forkable(t: Table, e: nat, pid: nat, killed: bool) {
    && |t.procs| == NPROC && |t.cpus| > 0 && t.cpus[0] == t.init < NPROC && e == (if t.init == 0 then 1 else 0)
    && t.procs[t.init].state == RUNNING && t.procs[t.init].pid == 1 && t.procs[t.init].forking == -1
    && t.procs[e].state == UNUSED && t.procs[e].pid == pid && t.procs[e].killed == killed && t.procs[e].parent == -1
  }

  lemma FirstIs(procs: seq<Proc>, f: Query, e: nat)
    requires e < |procs| && Fits(procs[e], f) && forall j :: 0 <= j < e ==> !Fits(procs[j], f)
    ensures First(procs, f) == e
  {
    var i := First(procs, f);
    assert !(i < e) && !(e < i);
  }

  lemma InitRuns(t: Table)
    requires Booted(t) && |t.cpus| > 0
    ensures var a := Dispatch(0, t.init);
            && Enabled(t, a) && Forkable(Next(t, a), if t.init == 0 then 1 else 0, 0, false)
            && Next(t, a).nextpid == 2 && Next(t, a).init == t.init
  {
  }

  lemma KillFlags(t: Table, e: nat, pid: nat)
    requires Forkable(t, e, pid, false) && pid != 1
    ensures Enabled(t, Kill(pid)) && Forkable(Next(t, Kill(pid)), e, pid, true)
  {
    FirstIs(t.procs, HasPid(pid), e);
  }

  lemma ForkBegins(t: Table, e: nat, pid: nat, killed: bool, ticks: nat)
    requires Forkable(t, e, pid, killed)
    ensures First(t.procs, IsUnused) == e && Enabled(t, Alloc(0, ticks))
    ensures var u := Next(t, Alloc(0, ticks));
            && |u.procs| == NPROC && u.cpus == t.cpus && u.init == t.init && u.procs[u.init] == t.procs[t.init].(forking := e)
            && u.procs[e] == t.procs[e].(state := EMBRYO, pid := t.nextpid, createtime := ticks, priority := 60, burst := 5)
  {
    FirstIs(t.procs, IsUnused, e);
  }

  /** The pid of a failed fork stays in its slot. */
  lemma ForkFails(t: Table, e: nat, pid: nat, ticks: nat)
    requires Forkable(t, e, pid, false)
    ensures Enabled(t, Alloc(0, ticks))
    ensures var u := Next(t, Alloc(0, ticks)); Enabled(u, Abandon(0)) && Forkable(Next(u, Abandon(0)), e, t.nextpid, false)
  {
    ForkBegins(t, e, pid, false, ticks);
  }

  /** It does happen: right after boot, kill(0) flags the lowest unused slot and the first fork
      builds its child there. */
  lemma FirstChildBornKilled(t: Table, ticks: nat) returns (tables: seq<Table>, actions: seq<Action>)
    requires Booted(t) && |t.cpus| > 0
    ensures Run(tables, actions) && tables[0] == t && actions == [Dispatch(0, t.init), Kill(0), Alloc(0, ticks)]
    ensures var e := First(tables[2].procs, IsUnused);
            e < |tables[3].procs| && tables[3].procs[e].state == EMBRYO && tables[3].procs[e].killed
  {
    InitRuns(t);
    hide Booted, Next, Enabled, Forkable, First;
    var e := if t.init == 0 then 1 else 0;
    var t1 := Next(t, Dispatch(0, t.init));
    KillFlags(t1, e, 0);
    var t2 := Next(t1, Kill(0));
    ForkBegins(t2, e, 0, true, ticks);
    tables, actions := [t, t1, t2, Next(t2, Alloc(0, ticks))], [Dispatch(0, t.init), Kill(0), Alloc(0, ticks)];
  }

  /** The same with the pid a failed fork left behind. */
  lemma StalePidBornKilled(t: Table, ticks: nat) returns (tables: seq<Table>, actions: seq<Action>)
    requires Booted(t) && |t.cpus| > 0
    ensures Run(tables, actions) && tables[0] == t
    ensures actions == [Dispatch(0, t.init), Alloc(0, ticks), Abandon(0), Kill(2), Alloc(0, ticks)]
    ensures var e := First(tables[4].procs, IsUnused);
            e < |tables[5].procs| && tables[5].procs[e].state == EMBRYO && tables[5].procs[e].killed
  {
    InitRuns(t);
    hide Booted, Next, Enabled, Forkable, First;
    var e := if t.init == 0 then 1 else 0;
    var t1 := Next(t, Dispatch(0, t.init));
    ForkFails(t1, e, 0, ticks);
    var t2 := Next(t1, Alloc(0, ticks));
    var t3 := Next(t2, Abandon(0));
    KillFlags(t3, e, 2);
    var t4 := Next(t3, Kill(2));
    ForkBegins(t4, e, 2, true, ticks);
    tables := [t, t1, t2, t3, t4, Next(t4, Alloc(0, ticks))];
    actions := [Dispatch(0, t.init), Alloc(0, ticks), Abandon(0), Kill(2), Alloc(0, ticks)];
  }
}
