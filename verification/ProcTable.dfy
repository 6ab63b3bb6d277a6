/** proc.c: the loops over the process table, each shown to perform one action of ProcProtocol. */
module ProcTable {
  import opened ProcProtocol
  import opened ProcHistory

  class Ptable {
    const procs: array<Proc>
    const cpus: array<int>
    var nextpid: nat
    const initproc: nat

    ghost function Now(): Table
      reads this, procs, cpus
    {
      Table(procs[..], cpus[..], nextpid, initproc)
    }

    ghost predicate Valid()
      reads this, procs, cpus
    {
      Inv(Now())
    }

    /** userinit: the first process is runnable in slot 0. */
    constructor (ncpu: nat)
      ensures Valid() && Booted(Now()) && cpus.Length == ncpu && fresh(procs) && fresh(cpus)
    {
      procs := new Proc[NPROC](_ => Proc(UNUSED, 0, -1, NoChan, false, -1, 0, 0, 0));
      cpus := new int[ncpu](_ => -1);
      nextpid := 2;
      initproc := 0;
      new;
      procs[0] := Proc(RUNNABLE, 1, -1, NoChan, false, -1, 0, 60, 5);
      BootedInv(Now());
    }

    /** wakeup1. */
    method Wakeup1(chan: Chan)
      modifies procs
      ensures procs[..] == Wake(old(procs[..]), chan)
      ensures forall i :: 0 <= i < procs.Length ==>
                procs[i] == old(if procs[i].state == SLEEPING && procs[i].chan == chan then procs[i].(state := RUNNABLE) else procs[i])
    {
      for i := 0 to procs.Length
        invariant forall j :: 0 <= j < i ==> procs[j] == Woken(old(procs[j]), chan)
        invariant forall j :: i <= j < procs.Length ==> procs[j] == old(procs[j])
      {
        if procs[i].state == SLEEPING && procs[i].chan == chan {
          procs[i] := procs[i].(state := RUNNABLE);
        }
      }
    }

    method Wakeup(chan: Chan)
      requires Valid() && Enabled(Now(), Action.Wakeup(chan))
      modifies procs
      ensures Valid() && Now() == Next(old(Now()), Action.Wakeup(chan))
      ensures forall i :: 0 <= i < procs.Length ==>
                procs[i] == old(if procs[i].state == SLEEPING && procs[i].chan == chan then procs[i].(state := RUNNABLE) else procs[i])
    {
      hide Inv;
      StepKeeps(Now(), Action.Wakeup(chan));
      Wakeup1(chan);
    }

    /** allocproc as called by fork: the slot of the new embryo, or the table size. */
    method Allocproc(c: nat, ticks: nat) returns (e: nat)
      requires Valid() && Enabled(Now(), Alloc(c, ticks))
      modifies this, procs
      ensures Valid() && Now() == Next(old(Now()), Alloc(c, ticks)) && e == First(old(procs[..]), IsUnused)
      ensures e == procs.Length ==> procs[..] == old(procs[..]) && nextpid == old(nextpid)
      ensures e < procs.Length ==>
                && procs[e].state == EMBRYO && procs[e].pid == old(nextpid) && nextpid == old(nextpid) + 1
                && procs[e].createtime == ticks && procs[e].priority == 60 && procs[e].burst == 5
                && (e != cpus[c] ==> procs[cpus[c]] == old(procs[cpus[c]]).(forking := e))
                && (forall j :: 0 <= j < procs.Length && j != e && j != cpus[c] ==> procs[j] == old(procs[j]))
    {
      hide Inv;
      StepKeeps(Now(), Alloc(c, ticks));
      e := 0;
      while e < procs.Length && procs[e].state != UNUSED
        invariant 0 <= e <= procs.Length
        invariant forall j :: 0 <= j < e ==> !Fits(procs[j], IsUnused)
      {
        e := e + 1;
      }
      if e == procs.Length { return; }
      procs[e] := procs[e].(state := EMBRYO, pid := nextpid, createtime := ticks, priority := 60, burst := 5);
      nextpid := nextpid + 1;
      procs[cpus[c]] := procs[cpus[c]].(forking := e);
    }

    /** fork gives its embryo up when memory is short. */
    method Abandon(c: nat)
      requires Valid() && Enabled(Now(), Action.Abandon(c))
      modifies procs
      ensures Valid() && Now() == Next(old(Now()), Action.Abandon(c))
      ensures var e := old(procs[cpus[c]].forking);
              && procs[e].state == UNUSED && procs[e].pid == old(procs[..])[e].pid && procs[cpus[c]].forking == -1
              && (forall j :: 0 <= j < procs.Length && j != e && j != cpus[c] ==> procs[j] == old(procs[..])[j])
    {
      hide Inv;
      StepKeeps(Now(), Action.Abandon(c));
      var e := procs[cpus[c]].forking;
      procs[e] := procs[e].(state := UNUSED);
      procs[cpus[c]] := procs[cpus[c]].(forking := -1);
    }

    /** fork names itself the parent of its embryo. */
    method Adopt(c: nat)
      requires Valid() && Enabled(Now(), Action.Adopt(c))
      modifies procs
      ensures Valid() && Now() == Next(old(Now()), Action.Adopt(c))
      ensures var e := procs[cpus[c]].forking; procs[..] == old(procs[..])[e := old(procs[..])[e].(parent := cpus[c])]
    {
      hide Inv;
      StepKeeps(Now(), Action.Adopt(c));
      var e := procs[cpus[c]].forking;
      procs[e] := procs[e].(parent := cpus[c]);
    }

    /** fork lets its child run and returns the pid. */
    method Start(c: nat) returns (pid: nat)
      requires Valid() && Enabled(Now(), Action.Start(c))
      modifies procs
      ensures Valid() && Now() == Next(old(Now()), Action.Start(c))
      ensures pid == old(procs[procs[cpus[c]].forking].pid)
      ensures var e := old(procs[cpus[c]].forking);
              && procs[e].state == RUNNABLE && procs[cpus[c]].forking == -1
              && (forall j :: 0 <= j < procs.Length && j != e && j != cpus[c] ==> procs[j] == old(procs[..])[j])
    {
      hide Inv;
      StepKeeps(Now(), Action.Start(c));
      var e := procs[cpus[c]].forking;
      pid := procs[e].pid;
      procs[e] := procs[e].(state := RUNNABLE);
      procs[cpus[c]] := procs[cpus[c]].(forking := -1);
    }

    /** The loop in exit: children of p go to init, which is woken if one of them is a zombie. */
    method Reparent(p: nat)
      modifies procs
      ensures var was := old(procs[..]);
              procs[..] == if HasZombie(was, p) then Wake(Handed(was, p, initproc), ProcChan(initproc))
                           else Handed(was, p, initproc)
    {
      ghost var was := procs[..];
      ghost var zombie := false;
      var i := 0;
      while i < procs.Length
        invariant 0 <= i <= procs.Length
        invariant forall j :: 0 <= j < i ==> procs[j] == Maybe(Adopted(was[j], p, initproc), zombie, initproc)
        invariant forall j :: i <= j < procs.Length ==> procs[j] == Maybe(was[j], zombie, initproc)
        invariant zombie <==> exists j :: 0 <= j < i && ZombieChild(was[j], p)
      {
        if procs[i].parent == p {
          procs[i] := procs[i].(parent := initproc);
          if procs[i].state == ZOMBIE {
            assert ZombieChild(was[i], p);
            Wakeup1(ProcChan(initproc));
            zombie := true;
          }
        }
        i := i + 1;
      }
      assert zombie <==> HasZombie(was, p);
    }

    /** exit, up to the switch to the scheduler. */
    method Exit(c: nat)
      requires Valid() && Enabled(Now(), Action.Exit(c))
      modifies procs, cpus
      ensures Valid() && Now() == Next(old(Now()), Action.Exit(c)) && cpus[..] == old(cpus[..])[c := -1]
      ensures forall j :: 0 <= j < procs.Length ==>
                procs[j].state == StatusAfter(old(Now()), Action.Exit(c), j) && FieldsAfter(old(Now()), Action.Exit(c), Now(), j)
    {
      hide Inv, HasZombie;
      StepKeeps(Now(), Action.Exit(c));
      InvSized(Now());
      ghost var t, u := Now(), Next(Now(), Action.Exit(c));
      forall j | 0 <= j < NPROC ensures u.procs[j].state == StatusAfter(t, Action.Exit(c), j) && FieldsAfter(t, Action.Exit(c), u, j) {
        StatusStep(t, Action.Exit(c), j);
        FieldsStep(t, Action.Exit(c), j);
      }
      hide StatusAfter, FieldsAfter;
      var p := cpus[c];
      Wakeup1(ProcChan(procs[p].parent));
      Reparent(p);
      procs[p] := procs[p].(state := ZOMBIE);
      cpus[c] := -1;
    }

    /** One pass of wait and waitx: the pid of a reaped child, or -1, or the caller is asleep. */
    method Wait(c: nat) returns (pid: int, asleep: bool)
      requires Valid() && Enabled(Now(), Action.Wait(c))
      modifies procs, cpus
      ensures Valid() && Now() == Next(old(Now()), Action.Wait(c))
      ensures asleep <==> !HasZombie(old(procs[..]), old(cpus[c])) && HasChild(old(procs[..]), old(cpus[c]))
                          && !old(procs[cpus[c]]).killed
      ensures !asleep ==> pid == if HasZombie(old(procs[..]), old(cpus[c]))
                                 then old(procs[..])[First(old(procs[..]), IsZombieOf(old(cpus[c])))].pid else -1
      ensures asleep ==> && procs[..] == old(procs[..][cpus[c] := procs[cpus[c]].(state := SLEEPING, chan := ProcChan(cpus[c]))])
                         && cpus[..] == old(cpus[..])[c := -1]
      ensures !asleep ==> cpus[..] == old(cpus[..])
      ensures !asleep && !HasZombie(old(procs[..]), old(cpus[c])) ==> procs[..] == old(procs[..])
      ensures HasZombie(old(procs[..]), old(cpus[c])) ==>
                var z := First(old(procs[..]), IsZombieOf(old(cpus[c])));
                procs[..] == old(procs[..])[z := old(procs[..])[z].(pid := 0, parent := -1, killed := false, state := UNUSED)]
    {
      hide Inv;
      StepKeeps(Now(), Action.Wait(c));
      var p := cpus[c];
      var havekids := false;
      var z := 0;
      while z < procs.Length
        invariant 0 <= z <= procs.Length && procs[..] == old(procs[..]) && cpus[..] == old(cpus[..])
        invariant havekids <==> exists j :: 0 <= j < z && procs[..][j].parent == p
        invariant forall j :: 0 <= j < z ==> !Fits(procs[..][j], IsZombieOf(p))
      {
        assert procs[..][z] == procs[z];
        if procs[z].parent == p {
          havekids := true;
          if procs[z].state == ZOMBIE {
            pid, asleep := procs[z].pid, false;
            assert Fits(procs[..][z], IsZombieOf(p));
            assert z == First(procs[..], IsZombieOf(p));
            assert HasZombie(procs[..], p) by { assert ZombieChild(procs[..][z], p); }
            procs[z] := Reaped(procs[z]);
            return;
          }
        }
        z := z + 1;
      }
      assert !HasZombie(procs[..], p) by { NoneFits(procs[..], p); }
      assert First(procs[..], IsZombieOf(p)) == procs.Length;
      assert havekids <==> HasChild(procs[..], p);
      if !havekids || procs[p].killed { return -1, false; }
      procs[p] := procs[p].(state := SLEEPING, chan := ProcChan(p));
      cpus[c] := -1;
      return -1, true;
    }

    /** sleep on a channel other than a process. */
    method Sleep(c: nat, chan: Chan)
      requires Valid() && Enabled(Now(), Action.Sleep(c, chan))
      modifies procs, cpus
      ensures Valid() && Now() == Next(old(Now()), Action.Sleep(c, chan))
      ensures procs[..] == old(procs[..][cpus[c] := procs[cpus[c]].(state := SLEEPING, chan := chan)])
      ensures cpus[..] == old(cpus[..])[c := -1]
    {
      hide Inv;
      StepKeeps(Now(), Action.Sleep(c, chan));
      procs[cpus[c]] := procs[cpus[c]].(state := SLEEPING, chan := chan);
      cpus[c] := -1;
    }

    method Yield(c: nat)
      requires Valid() && Enabled(Now(), Action.Yield(c))
      modifies procs, cpus
      ensures Valid() && Now() == Next(old(Now()), Action.Yield(c))
      ensures procs[..] == old(procs[..][cpus[c] := procs[cpus[c]].(state := RUNNABLE)])
      ensures cpus[..] == old(cpus[..])[c := -1]
    {
      hide Inv;
      StepKeeps(Now(), Action.Yield(c));
      procs[cpus[c]] := procs[cpus[c]].(state := RUNNABLE);
      cpus[c] := -1;
    }

    /** kill: 0 when some slot has the pid, -1 otherwise. */
    method Kill(pid: nat) returns (r: int)
      requires Valid()
      modifies procs
      ensures Valid() && Now() == Next(old(Now()), Action.Kill(pid))
      ensures r == 0 <==> exists i :: 0 <= i < |old(procs[..])| && old(procs[..])[i].pid == pid
      ensures r != 0 ==> r == -1 && procs[..] == old(procs[..])
      ensures r == 0 ==>
                var i := First(old(procs[..]), HasPid(pid));
                && i < procs.Length && old(procs[..])[i].pid == pid
                && procs[i].killed && procs[i].state == (if old(procs[..])[i].state == SLEEPING then RUNNABLE else old(procs[..])[i].state)
                && procs[..] == old(procs[..])[i := old(procs[..])[i].(killed := true, state := procs[i].state)]
    {
      hide Inv;
      StepKeeps(Now(), Action.Kill(pid));
      var i := 0;
      while i < procs.Length
        invariant 0 <= i <= procs.Length && procs[..] == old(procs[..])
        invariant forall j :: 0 <= j < i ==> !Fits(procs[..][j], HasPid(pid))
      {
        if procs[i].pid == pid {
          assert Fits(procs[..][i], HasPid(pid));
          assert i == First(procs[..], HasPid(pid)) && old(procs[..])[i].pid == pid;
          procs[i] := procs[i].(killed := true);
          if procs[i].state == SLEEPING { procs[i] := procs[i].(state := RUNNABLE); }
          assert procs[..] == old(procs[..])[i := procs[i]];
          return 0;
        }
        i := i + 1;
      }
      assert forall j :: 0 <= j < |procs[..]| ==> !Fits(procs[..][j], HasPid(pid));
      return -1;
    }

    /** The scheduler hands CPU c to a runnable process. */
    method Dispatch(c: nat, p: nat)
      requires Valid() && Enabled(Now(), Action.Dispatch(c, p))
      modifies procs, cpus
      ensures Valid() && Now() == Next(old(Now()), Action.Dispatch(c, p))
      ensures procs[..] == old(procs[..][p := procs[p].(state := RUNNING, chan := NoChan)])
      ensures cpus[..] == old(cpus[..])[c := p]
    {
      hide Inv;
      StepKeeps(Now(), Action.Dispatch(c, p));
      cpus[c] := p;
      procs[p] := procs[p].(state := RUNNING, chan := NoChan);
    }
  }

  lemma BootedInv(t: Table)
    requires Booted(t)
    ensures Inv(t)
  {
  }

  /** init is woken once a zombie has been handed to it. */
  function Maybe(p: Proc, zombie: bool, init: int): Proc {
    if zombie then Woken(p, ProcChan(init)) else p
  }

  lemma NoneFits(procs: seq<Proc>, p: int)
    requires forall j :: 0 <= j < |procs| ==> !Fits(procs[j], IsZombieOf(p))
    ensures !HasZombie(procs, p)
  {
    forall j | 0 <= j < |procs| ensures !ZombieChild(procs[j], p) {
      assert !Fits(procs[j], IsZombieOf(p));
    }
  }
}
