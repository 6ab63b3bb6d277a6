/** What each action of the process table means for each slot, stated field by field, and what the
    history of a run says about who sleeps and who runs. */
module ProcHistory {
  import opened ProcProtocol

  // ----- what happens to a slot -----

  /** p is the lowest slot that fits. */
  ghost predicate Lowest(procs: seq<Proc>, f: Query, p: nat) {
    p < |procs| && Fits(procs[p], f) && forall j :: 0 <= j < p ==> !Fits(procs[j], f)
  }

  /** The process in slot p runs on CPU c. */
  ghost predicate Runs(t: Table, c: nat, p: nat) {
    c < |t.cpus| && t.cpus[c] == p && p < |t.procs|
  }

  /** The process on CPU c is building slot p. */
  ghost predicate BuildsSlot(t: Table, c: nat, p: nat) {
    OnCpu(t, c) && t.procs[t.cpus[c]].forking == p && p < |t.procs|
  }

  /** Slot p goes to sleep on chan: in sleep, or in wait with a child, no zombie and no kill pending. */
  ghost predicate FallsAsleep(t: Table, a: Action, p: nat, chan: Chan) {
    || (a.Sleep? && Runs(t, a.c, p) && chan == a.chan)
    || (a.Wait? && Runs(t, a.c, p) && chan == ProcChan(p) && !t.procs[p].killed
        && HasChild(t.procs, p) && !HasZombie(t.procs, p))
  }

  /** A sleeper on chan in slot p is woken: by wakeup of the channel, by kill, or by an exit that
      leaves its parent, or init, a zombie. */
  ghost predicate Rouses(t: Table, a: Action, p: nat) {
    && p < |t.procs| && t.procs[p].state == SLEEPING
    && match a
       case Wakeup(chan) => t.procs[p].chan == chan
       case Kill(pid) => Lowest(t.procs, HasPid(pid), p)
       case Exit(c) => && OnCpu(t, c)
                       && (|| t.procs[p].chan == ProcChan(t.procs[t.cpus[c]].parent)
                           || (t.procs[p].chan == ProcChan(t.init) && HasZombie(t.procs, t.cpus[c])))
       case _ => false
  }

  ghost function StatusAfter(t: Table, a: Action, p: nat): Status
    requires p < |t.procs|
  {
    var was := t.procs[p].state;
    match a
    case Alloc(_, _) => if Lowest(t.procs, IsUnused, p) then EMBRYO else was
    case Abandon(c) => if BuildsSlot(t, c, p) then UNUSED else was
    case Adopt(_) => was
    case Start(c) => if BuildsSlot(t, c, p) then RUNNABLE else was
    case Exit(c) => if Runs(t, c, p) then ZOMBIE else if Rouses(t, a, p) then RUNNABLE else was
    case Wait(c) => if OnCpu(t, c) && Lowest(t.procs, IsZombieOf(t.cpus[c]), p) then UNUSED
                    else if FallsAsleep(t, a, p, ProcChan(p)) then SLEEPING else was
    case Sleep(c, _) => if Runs(t, c, p) then SLEEPING else was
    case Wakeup(_) => if Rouses(t, a, p) then RUNNABLE else was
    case Yield(c) => if Runs(t, c, p) then RUNNABLE else was
    case Kill(_) => if Rouses(t, a, p) then RUNNABLE else was
    case Dispatch(_, q) => if p == q then RUNNING else was
  }

  lemma FirstLowest(procs: seq<Proc>, f: Query, p: nat)
    requires p < |procs|
    ensures Lowest(procs, f, p) <==> First(procs, f) == p
  {
    var i := First(procs, f);
    if Lowest(procs, f, p) { assert !(i < p) && !(p < i); }
  }

  /** Waking sleepers makes and unmakes no zombies. */
  lemma ZombiesStay(procs: seq<Proc>, chan: Chan, parent: int)
    ensures HasZombie(Wake(procs, chan), parent) <==> HasZombie(procs, parent)
  {
    var woken := Wake(procs, chan);
    if HasZombie(procs, parent) {
      var i :| 0 <= i < |procs| && ZombieChild(procs[i], parent);
      assert ZombieChild(woken[i], parent);
    }
    if HasZombie(woken, parent) {
      var i :| 0 <= i < |woken| && ZombieChild(woken[i], parent);
      assert ZombieChild(procs[i], parent);
    }
  }

  lemma ZombieFits(procs: seq<Proc>, parent: int)
    ensures HasZombie(procs, parent) <==> First(procs, IsZombieOf(parent)) < |procs|
  {
    var i := First(procs, IsZombieOf(parent));
    if i < |procs| { assert ZombieChild(procs[i], parent); }
    if HasZombie(procs, parent) {
      var j :| 0 <= j < |procs| && ZombieChild(procs[j], parent);
      assert Fits(procs[j], IsZombieOf(parent));
    }
  }

  /** Every action changes the status of every slot as said, in every table. */
  lemma StatusStep(t: Table, a: Action, p: nat)
    requires Inv(t) && Enabled(t, a) && p < NPROC
    ensures |t.procs| == |Next(t, a).procs| == NPROC && Next(t, a).procs[p].state == StatusAfter(t, a, p)
  {
    hide CpusOk, SlotsOk, PairsOk, HasZombie, HasChild, First, Lowest;
    InvSized(t);
    match a
    case Alloc(c, ticks) => FirstLowest(t.procs, IsUnused, p);
    case Exit(c) => ExitStatus(t, c, p);
    case Wait(c) =>
      FirstLowest(t.procs, IsZombieOf(t.cpus[c]), p);
      ZombieFits(t.procs, t.cpus[c]);
    case Kill(pid) => FirstLowest(t.procs, HasPid(pid), p);
    case _ => BuildStatus(t, a, p);
  }

  lemma ExitStatus(t: Table, c: nat, p: nat)
    requires Inv(t) && Enabled(t, Exit(c)) && p < NPROC
    ensures Next(t, Exit(c)).procs[p].state == StatusAfter(t, Exit(c), p)
  {
    var e := t.cpus[c];
    ZombiesStay(t.procs, ProcChan(t.procs[e].parent), e);
  }

  lemma BuildStatus(t: Table, a: Action, p: nat)
    requires Inv(t) && Enabled(t, a) && p < NPROC
    requires !a.Alloc? && !a.Exit? && !a.Wait? && !a.Kill?
    ensures |Next(t, a).procs| == NPROC && Next(t, a).procs[p].state == StatusAfter(t, a, p)
  {
    if a.Abandon? || a.Adopt? || a.Start? {
      var q := t.cpus[a.c];
      assert SlotOk(t, q);
    }
  }

  // ----- pids, parents, channels and CPUs -----

  ghost predicate FieldsAfter(t: Table, a: Action, u: Table, p: nat)
    requires p < |t.procs| == |u.procs|
  {
    var q, r := t.procs[p], u.procs[p];
    var reaped := a.Wait? && OnCpu(t, a.c) && Lowest(t.procs, IsZombieOf(t.cpus[a.c]), p);
    && r.pid == (if a.Alloc? && Lowest(t.procs, IsUnused, p) then t.nextpid else if reaped then 0 else q.pid)
    && r.parent == (if a.Adopt? && BuildsSlot(t, a.c, p) then t.cpus[a.c]
                    else if a.Exit? && OnCpu(t, a.c) && q.parent == t.cpus[a.c] then t.init
                    else if reaped then -1 else q.parent)
    && r.chan == (if a.Sleep? && Runs(t, a.c, p) then a.chan
                  else if FallsAsleep(t, a, p, ProcChan(p)) then ProcChan(p)
                  else if a.Dispatch? && a.p == p then NoChan else q.chan)
  }

  lemma FieldsStep(t: Table, a: Action, p: nat)
    requires Inv(t) && Enabled(t, a) && p < NPROC
    ensures |t.procs| == |Next(t, a).procs| == NPROC && FieldsAfter(t, a, Next(t, a), p)
  {
    hide CpusOk, SlotsOk, PairsOk, HasZombie, HasChild, First, Lowest;
    InvSized(t);
    match a
    case Alloc(c, ticks) => FirstLowest(t.procs, IsUnused, p);
    case Exit(c) => ExitFields(t, c, p);
    case Wait(c) =>
      FirstLowest(t.procs, IsZombieOf(t.cpus[c]), p);
      ZombieFits(t.procs, t.cpus[c]);
    case Kill(pid) =>
    case _ => OtherFields(t, a, p);
  }

  lemma ExitFields(t: Table, c: nat, p: nat)
    requires |t.procs| == NPROC && Enabled(t, Exit(c)) && p < NPROC
    ensures FieldsAfter(t, Exit(c), Next(t, Exit(c)), p)
  {
  }

  lemma OtherFields(t: Table, a: Action, p: nat)
    requires |t.procs| == NPROC && Enabled(t, a) && p < NPROC
    requires !a.Alloc? && !a.Exit? && !a.Wait? && !a.Kill?
    ensures |Next(t, a).procs| == NPROC && FieldsAfter(t, a, Next(t, a), p)
  {
    hide HasZombie, HasChild, First, Lowest;
  }

  /** CPU c is given up in exit, sleep, yield and a wait that sleeps, and taken by dispatch. */
  lemma CpuStep(t: Table, a: Action, c: nat)
    requires Inv(t) && Enabled(t, a) && c < |t.cpus|
    ensures |Next(t, a).cpus| == |t.cpus|
    ensures Next(t, a).cpus[c] ==
            if a.Dispatch? && a.c == c then a.p
            else if (a.Exit? || a.Sleep? || a.Yield?) && a.c == c then -1
            else if a.Wait? && a.c == c && FallsAsleep(t, a, t.cpus[c], ProcChan(t.cpus[c])) then -1
            else t.cpus[c]
  {
    InvSized(t);
    if a.Wait? { ZombieFits(t.procs, t.cpus[a.c]); }
  }

  // ----- who sleeps -----

  /** Slot p fell asleep on chan at step k and was not woken from then to state i. */
  ghost predicate AsleepSince(tables: seq<Table>, actions: seq<Action>, p: nat, chan: Chan, k: nat, i: nat)
    requires |tables| == |actions| + 1 && i <= |actions|
  {
    k < i && FallsAsleep(tables[k], actions[k], p, chan) && forall m :: k < m < i ==> !Rouses(tables[m], actions[m], p)
  }

  ghost predicate Slumbers(tables: seq<Table>, actions: seq<Action>, p: nat, chan: Chan, i: nat)
    requires |tables| == |actions| + 1 && i <= |actions|
  {
    exists k :: 0 <= k < i && AsleepSince(tables, actions, p, chan, k, i)
  }

  ghost predicate SleepsOn(t: Table, p: nat, chan: Chan) {
    p < |t.procs| && t.procs[p].state == SLEEPING && t.procs[p].chan == chan
  }

  lemma SleepStep(t: Table, a: Action, p: nat, chan: Chan)
    requires Inv(t) && Enabled(t, a) && p < NPROC
    ensures SleepsOn(Next(t, a), p, chan) <==> FallsAsleep(t, a, p, chan) || (SleepsOn(t, p, chan) && !Rouses(t, a, p))
    ensures FallsAsleep(t, a, p, chan) ==> !Rouses(t, a, p) && !SleepsOn(t, p, chan)
  {
    StatusStep(t, a, p);
    FieldsStep(t, a, p);
    RunnerAwake(t, p);
    StillAsleep(t, a, p);
    hide Inv, Next, HasZombie, HasChild;
  }

  /** The process that acts is running. */
  lemma RunnerAwake(t: Table, p: nat)
    requires Inv(t) && p < NPROC
    ensures forall c: nat :: Runs(t, c, p) ==> t.procs[p].state == RUNNING
    ensures forall c: nat :: BuildsSlot(t, c, p) ==> t.procs[p].state == EMBRYO
  {
    hide PairsOk;
    forall c: nat | BuildsSlot(t, c, p) ensures t.procs[p].state == EMBRYO {
      assert OnCpu(t, c);
      var q: nat := t.cpus[c];
      assert SlotOk(t, q);
    }
  }

  /** Sleepers are not dispatched. */
  lemma StillAsleep(t: Table, a: Action, p: nat)
    requires Enabled(t, a) && p < |t.procs|
    ensures t.procs[p].state == SLEEPING ==> !(a.Dispatch? && a.p == p)
  {
  }

  lemma SlumbersNext(tables: seq<Table>, actions: seq<Action>, p: nat, chan: Chan, i: nat)
    requires |tables| == |actions| + 1 && 0 < i <= |actions|
    ensures Slumbers(tables, actions, p, chan, i) <==>
            FallsAsleep(tables[i - 1], actions[i - 1], p, chan)
            || (Slumbers(tables, actions, p, chan, i - 1) && !Rouses(tables[i - 1], actions[i - 1], p))
  {
    hide FallsAsleep, Rouses;
    var t, a := tables[i - 1], actions[i - 1];
    if FallsAsleep(t, a, p, chan) {
      assert AsleepSince(tables, actions, p, chan, i - 1, i);
    } else {
      if Slumbers(tables, actions, p, chan, i) {
        var k :| 0 <= k < i && AsleepSince(tables, actions, p, chan, k, i);
        assert AsleepSince(tables, actions, p, chan, k, i - 1) && !Rouses(t, a, p);
      }
      if Slumbers(tables, actions, p, chan, i - 1) && !Rouses(t, a, p) {
        var k :| 0 <= k < i - 1 && AsleepSince(tables, actions, p, chan, k, i - 1);
        assert AsleepSince(tables, actions, p, chan, k, i);
      }
    }
  }

  /** In every reachable table a slot sleeps on a channel exactly when it fell asleep there and has
      not since been woken by a wakeup, a kill or an exit: no wakeup is lost and none is made up. */
  lemma {:induction false} SleepHistory(tables: seq<Table>, actions: seq<Action>, i: nat, p: nat, chan: Chan)
    requires Run(tables, actions) && i < |tables| && p < NPROC
    ensures SleepsOn(tables[i], p, chan) <==> Slumbers(tables, actions, p, chan, i)
  {
    if i == 0 {
    } else {
      hide Inv, Next, Enabled, SleepsOn, FallsAsleep, Rouses, Slumbers;
      var t, a := tables[i - 1], actions[i - 1];
      SleepHistory(tables, actions, i - 1, p, chan);
      RunKeeps(tables, actions, i - 1);
      assert Enabled(t, a) && tables[i] == Next(t, a);
      SleepStep(t, a, p, chan);
      SlumbersNext(tables, actions, p, chan, i);
    }
  }

  /** In every run: a process that kill just hit is flagged and not asleep, after a wakeup nobody
      sleeps on its channel, and a process that yields is runnable. */
  lemma Awake(tables: seq<Table>, actions: seq<Action>, i: nat, p: nat)
    requires Run(tables, actions) && i < |actions| && p < NPROC
    ensures |tables[i].procs| == |tables[i + 1].procs| == NPROC
    ensures actions[i].Kill? && Lowest(tables[i].procs, HasPid(actions[i].pid), p) ==>
              tables[i + 1].procs[p].killed && tables[i + 1].procs[p].state != SLEEPING
    ensures actions[i].Wakeup? ==> !SleepsOn(tables[i + 1], p, actions[i].chan)
    ensures actions[i].Yield? && Runs(tables[i], actions[i].c, p) ==> tables[i + 1].procs[p].state == RUNNABLE
  {
    var t, a := tables[i], actions[i];
    RunKeeps(tables, actions, i);
    assert Enabled(t, a) && tables[i + 1] == Next(t, a);
    StatusStep(t, a, p);
    FieldsStep(t, a, p);
    FlagStep(t, a, p);
    if a.Kill? { FirstLowest(t.procs, HasPid(a.pid), p); }
    hide Inv, Next, First, Run;
  }
}
