/** pipe.c.  A critical section under the pipe's lock, up to a sleep or a return, is one atomic
    action; PipeProtocol states what each action does and proves facts about every run, and
    the class Channel carries the actions out on a ring buffer with 32-bit counters. */
module PipeProtocol {
  import opened Blocks
  import opened Basics

  const PIPESIZE := 512

  /** Bytes taken from writers and given to readers so far, which ends are open, and who sleeps
      on &nwrite and &nread. */
  datatype State = State(accepted: seq<Byte>, delivered: seq<Byte>, readopen: bool, writeopen: bool,
                         writers: set<nat>, readers: set<nat>)

  /** A process starts or resumes writing the given bytes, starts or resumes reading up to n bytes,
      closes an end, or is woken by kill. */
  datatype Action =
    | Write(pid: nat, bytes: seq<Byte>, killed: bool)
    | Read(pid: nat, n: nat, killed: bool)
    | Close(writable: bool)
    | Kill(pid: nat)

  datatype Outcome = Done | Failed | Asleep

  ghost predicate Counted(s: State) {
    && |s.delivered| <= |s.accepted| <= |s.delivered| + PIPESIZE
    && s.delivered == s.accepted[..|s.delivered|]
  }

  ghost function Room(s: State): (r: nat)
    requires Counted(s)
  {
    PIPESIZE - (|s.accepted| - |s.delivered|)
  }

  ghost predicate Full(s: State) {
    |s.accepted| == |s.delivered| + PIPESIZE
  }

  ghost predicate Empty(s: State) {
    |s.accepted| == |s.delivered|
  }

  /** How many of the offered bytes a write takes before it sleeps or returns. */
  ghost function Taken(s: State, bytes: seq<Byte>): (n: nat)
    requires Counted(s)
    ensures n <= |bytes| && n <= Room(s)
  {
    Least(|bytes|, Room(s))
  }

  /** How a write ends. */
  ghost function WriteOutcome(s: State, bytes: seq<Byte>, killed: bool): Outcome
    requires Counted(s)
  {
    if |bytes| <= Room(s) then Done else if killed || !s.readopen then Failed else Asleep
  }

  ghost function ReadOutcome(s: State, killed: bool): Outcome {
    if !Empty(s) || !s.writeopen then Done else if killed then Failed else Asleep
  }

  ghost function Next(s: State, a: Action): State
    requires Counted(s)
  {
    match a
    case Write(pid, bytes, killed) =>
      var t := s.(accepted := s.accepted + bytes[..Taken(s, bytes)]);
      (match WriteOutcome(s, bytes, killed)
       case Done => t.(readers := {})
       case Failed => t
       case Asleep => t.(readers := {}, writers := s.writers + {pid}))
    case Read(pid, n, killed) =>
      (match ReadOutcome(s, killed)
       case Done =>
         var k := Least(n, |s.accepted| - |s.delivered|);
         s.(delivered := s.accepted[..|s.delivered| + k], writers := {})
       case Failed => s
       case Asleep => s.(readers := s.readers + {pid}))
    case Close(writable) =>
      if writable then s.(writeopen := false, readers := {}) else s.(readopen := false, writers := {})
    case Kill(pid) => s.(writers := s.writers - {pid}, readers := s.readers - {pid})
  }

  const START := State([], [], true, true, {}, {})

  // ----- facts about every run -----

  /** Bytes come out in order, the buffer never overflows, and a sleeping writer has a full pipe
      whose read end is open. */
  ghost predicate Inv(s: State) {
    && Counted(s)
    && (s.writers != {} ==> Full(s) && s.readopen)
  }

  ghost predicate Run(states: seq<State>, actions: seq<Action>) {
    && |states| == |actions| + 1
    && states[0] == START
    && forall i :: 0 <= i < |actions| ==> Counted(states[i]) ==> states[i + 1] == Next(states[i], actions[i])
  }

  lemma StepKeeps(s: State, a: Action)
    requires Inv(s)
    ensures Inv(Next(s, a))
  {
    var t := Next(s, a);
    match a
    case Write(pid, bytes, killed) =>
      assert t.accepted[..|s.delivered|] == s.accepted[..|s.delivered|];
    case Read(pid, n, killed) =>
    case Close(writable) =>
    case Kill(pid) =>
  }

  /** Under any interleaving what was delivered is a prefix of what was accepted, at most PIPESIZE
      bytes are in between, and sleeping writers wait for a full pipe. */
  lemma {:induction false} RunKeeps(states: seq<State>, actions: seq<Action>, i: nat)
    requires Run(states, actions) && i < |states|
    ensures Inv(states[i]) && states[i].delivered <= states[i].accepted
  {
    if i > 0 {
      RunKeeps(states, actions, i - 1);
      StepKeeps(states[i - 1], actions[i - 1]);
    }
  }

  // ----- nothing is lost -----

  /** How many bytes the reads of steps i .. j - 1 asked for. */
  ghost function Asked(actions: seq<Action>, i: nat, j: nat): (n: nat)
    requires i <= j <= |actions|
    decreases j
  {
    if i == j then 0 else Asked(actions, i, j - 1) + if actions[j - 1].Read? then actions[j - 1].n else 0
  }

  /** A read takes as many bytes as it asks for, or all there are; nothing else takes any, and nothing
      that was accepted is given up. */
  lemma StepDrains(s: State, a: Action)
    requires Inv(s)
    ensures s.accepted <= Next(s, a).accepted && s.delivered <= Next(s, a).delivered
    ensures a.Read? ==> |Next(s, a).delivered| == Least(|s.accepted|, |s.delivered| + a.n)
    ensures !a.Read? ==> Next(s, a).delivered == s.delivered
  {
    RunStep(s, a);
  }

  lemma RunStep(s: State, a: Action)
    requires Inv(s)
    ensures Inv(Next(s, a)) && s.delivered <= Next(s, a).delivered
  {
    StepKeeps(s, a);
    if a.Read? { assert s.accepted[..|s.delivered|] == s.delivered; }
  }

  /** Once later reads have asked for enough, all bytes accepted by step i are delivered. */
  lemma {:induction false} Drains(states: seq<State>, actions: seq<Action>, i: nat, j: nat)
    requires Run(states, actions) && i <= j < |states|
    ensures states[i].accepted <= states[j].accepted && states[j].delivered <= states[j].accepted
    ensures |states[j].delivered| >= Least(|states[i].accepted|, |states[i].delivered| + Asked(actions, i, j))
    decreases j
  {
    RunKeeps(states, actions, j);
    if i < j {
      Drains(states, actions, i, j - 1);
      RunKeeps(states, actions, j - 1);
      StepDrains(states[j - 1], actions[j - 1]);
    }
  }

  /** A write that fits is accepted whole, and delivered whole, in its place in the stream, once later
      reads have asked for the bytes then in the pipe. */
  lemma CompletedWriteArrives(states: seq<State>, actions: seq<Action>, i: nat, j: nat)
    requires Run(states, actions) && i < j < |states| && actions[i].Write?
    requires |states[i].accepted| - |states[i].delivered| + |actions[i].bytes| <= PIPESIZE
    requires Asked(actions, i + 1, j) >= |states[i + 1].accepted| - |states[i + 1].delivered|
    ensures states[i + 1].accepted == states[i].accepted + actions[i].bytes
    ensures states[i].accepted + actions[i].bytes <= states[j].delivered
  {
    var bytes := actions[i].bytes;
    RunKeeps(states, actions, i);
    assert bytes[..|bytes|] == bytes;
    assert states[i + 1] == Next(states[i], actions[i]);
    Drains(states, actions, i + 1, j);
  }

  /** A sleeping reader has an empty pipe with a writer left. */
  ghost predicate ReadersWait(s: State) {
    s.readers != {} ==> Empty(s) && s.writeopen
  }

  /** A write that meets a full pipe and gives up while somebody sleeps in piperead. */
  ghost predicate Abandons(s: State, a: Action)
    requires Counted(s)
  {
    a.Write? && |a.bytes| > Room(s) && (a.killed || !s.readopen) && s.readers != {}
  }

  /** Exactly the abandoned writes leave a reader asleep on a pipe that is not empty. */
  lemma ReadersWaitIff(s: State, a: Action)
    requires Inv(s) && ReadersWait(s)
    ensures ReadersWait(Next(s, a)) <==> !Abandons(s, a)
  {
    var t := Next(s, a);
    match a
    case Write(pid, bytes, killed) =>
    case Read(pid, n, killed) =>
    case Close(writable) =>
    case Kill(pid) =>
  }

  /** It does happen: a killed writer fills the pipe past a sleeping reader. */
  lemma KilledWriterStrandsReader(reader: nat, writer: nat, bytes: seq<Byte>)
    requires |bytes| > PIPESIZE
    ensures var s := Next(START, Read(reader, 1, false));
            Inv(s) && ReadersWait(s) && !ReadersWait(Next(s, Write(writer, bytes, true)))
  {
    var s := Next(START, Read(reader, 1, false));
    assert reader in s.readers;
  }

  /** The file layer reads and writes through open ends only, and closes an end only when no
      process is inside a call on it. */
  ghost predicate Proper(s: State, a: Action) {
    match a
    case Write(_, _, _) => s.writeopen
    case Read(_, _, _) => s.readopen
    case Close(writable) => if writable then s.writers == {} else s.readers == {}
    case Kill(_) => true
  }

  /** With proper use and no killed writer, every sleeping reader waits for an empty pipe, so it is
      woken by whatever ends its wait. */
  lemma {:induction false} ReadersAlwaysWait(states: seq<State>, actions: seq<Action>, i: nat)
    requires Run(states, actions) && i < |states|
    requires forall j :: 0 <= j < |actions| ==> Proper(states[j], actions[j])
    requires forall j :: 0 <= j < |actions| ==> (actions[j].Write? ==> !actions[j].killed)
    ensures ReadersWait(states[i]) && (states[i].readers != {} ==> states[i].readopen)
  {
    if i > 0 {
      var s, a := states[i - 1], actions[i - 1];
      RunKeeps(states, actions, i - 1);
      ReadersAlwaysWait(states, actions, i - 1);
      ReadersWaitIff(s, a);
      assert Proper(s, a);
      assert states[i] == Next(s, a);
    }
  }
}

module PipeBuffer {
  import opened Basics
  import opened Blocks
  import opened PipeProtocol

  const WRAP := 0x1_0000_0000

  /** 32-bit unsigned arithmetic. */
  function Wrap(n: nat): Word {
    n % WRAP
  }

  // ----- counters that wrap -----

  /** Taking a 32-bit counter modulo 512 loses nothing. */
  lemma Slot(n: nat)
    ensures Wrap(n) % 512 == n % 512
  {
    var q := n / WRAP;
    assert n == q * WRAP + n % WRAP;
    assert n == 512 * (q * 0x80_0000) + n % WRAP;
    AddMultiple(n % WRAP, q * 0x80_0000);
  }

  lemma AddMultiple(x: nat, m: nat)
    ensures (512 * m + x) % 512 == x % 512
  {
  }

  /** Counters at most 512 apart compare as the unbounded counts do. */
  lemma Apart(r: nat, w: nat)
    requires r <= w <= r + 512
    ensures Wrap(w) == Wrap(r) <==> w == r
    ensures Wrap(w) == Wrap(Wrap(r) + 512) <==> w == r + 512
  {
  }

  lemma Plus(n: nat)
    ensures Wrap(Wrap(n) + 1) == Wrap(n + 1)
  {
  }

  /** Different bytes in flight lie in different slots. */
  lemma SlotsApart(r: nat, k: nat, w: nat)
    requires r <= k < w < r + 512
    ensures k % 512 != w % 512
  {
  }

  /** Byte number k, from r on, lies in slot k modulo 512. */
  ghost predicate Ring(d: seq<Byte>, accepted: seq<Byte>, r: nat) {
    |d| == 512 && forall k :: r <= k < |accepted| ==> d[k % 512] == accepted[k]
  }

  lemma RingPut(d: seq<Byte>, accepted: seq<Byte>, r: nat, b: Byte)
    requires Ring(d, accepted, r) && r <= |accepted| < r + 512
    ensures Ring(d[|accepted| % 512 := b], accepted + [b], r)
  {
    var w := |accepted|;
    forall k | r <= k < w ensures k % 512 != w % 512 { SlotsApart(r, k, w); }
  }

  class Channel {
    const data: array<Byte>
    var nread: Word
    var nwrite: Word
    var readopen: bool
    var writeopen: bool
    var writers: set<nat>
    var readers: set<nat>
    ghost var accepted: seq<Byte>
    ghost var delivered: seq<Byte>

    ghost function Now(): State
      reads this
    {
      State(accepted, delivered, readopen, writeopen, writers, readers)
    }

    ghost predicate Valid()
      reads this, data
    {
      && data.Length == 512
      && Counted(Now())
      && nwrite == Wrap(|accepted|) && nread == Wrap(|delivered|)
      && Ring(data[..], accepted, |delivered|)
    }

    /** pipealloc: an empty pipe with both ends open. */
    constructor ()
      ensures Valid() && Now() == START && fresh(data)
    {
      data := new Byte[512](_ => 0);
      nread, nwrite := 0, 0;
      readopen, writeopen := true, true;
      writers, readers := {}, {};
      accepted, delivered := [], [];
    }

    /** One byte goes into the ring. */
    method Put(b: Byte)
      requires Valid() && !Full(Now())
      modifies data, `nwrite, `accepted
      ensures Valid() && accepted == old(accepted) + [b]
    {
      hide Ring, Wrap;
      ghost var w := |accepted|;
      Slot(w);
      Plus(w);
      RingPut(data[..], accepted, |delivered|, b);
      data[nwrite % 512] := b;
      nwrite := Wrap(nwrite + 1);
      accepted := accepted + [b];
      assert data[..] == old(data[..])[w % 512 := b];
      assert old(accepted)[..|delivered|] == accepted[..|delivered|];
    }

    /** One byte comes out of the ring. */
    method Get() returns (b: Byte)
      requires Valid() && !Empty(Now())
      modifies `nread, `delivered
      ensures Valid() && delivered == old(delivered) + [b] && b == accepted[|old(delivered)|]
    {
      ghost var r := |delivered|;
      Slot(r);
      Plus(r);
      b := data[nread % 512];
      nread := Wrap(nread + 1);
      delivered := delivered + [b];
    }

    /** pipewrite from byte i on, up to its return or its next sleep. */
    method Pipewrite(pid: nat, addr: seq<Byte>, i: nat, killed: bool) returns (k: nat, out: Outcome)
      requires Valid() && i <= |addr|
      modifies this, data
      ensures Valid() && Now() == Next(old(Now()), Write(pid, addr[i..], killed))
      ensures i <= k <= |addr| && accepted == old(accepted) + addr[i..k] && delivered == old(delivered)
      ensures out == Done <==> |old(accepted)| - |old(delivered)| + (|addr| - i) <= PIPESIZE
      ensures out == Done ==> k == |addr| && readers == {} && writers == old(writers)
      ensures out != Done ==> k < |addr| && |accepted| - |delivered| == PIPESIZE
      ensures out == Failed <==> out != Done && (killed || !readopen)
      ensures out == Failed ==> readers == old(readers) && writers == old(writers)
      ensures out == Asleep ==> readers == {} && writers == old(writers) + {pid}
      ensures readopen == old(readopen) && writeopen == old(writeopen)
    {
      hide Ring, Wrap;
      k := i;
      while k < |addr|
        invariant Valid() && i <= k <= |addr|
        invariant Now() == old(Now()).(accepted := old(accepted) + addr[i..k])
      {
        Apart(|delivered|, |accepted|);
        if nwrite == Wrap(nread + PIPESIZE) {
          assert addr[i..][..k - i] == addr[i..k];
          if !readopen || killed { return k, Failed; }
          readers := {};
          writers := writers + {pid};
          return k, Asleep;
        }
        Put(addr[k]);
        k := k + 1;
      }
      assert addr[i..][..k - i] == addr[i..k];
      readers := {};
      return k, Done;
    }

    /** piperead up to its return or its next sleep. */
    method Piperead(pid: nat, n: nat, killed: bool) returns (bytes: seq<Byte>, out: Outcome)
      requires Valid()
      modifies this
      ensures Valid() && Now() == Next(old(Now()), Read(pid, n, killed))
      ensures accepted == old(accepted) && delivered == old(delivered) + bytes && delivered <= accepted
      ensures out == Done <==> |old(delivered)| < |accepted| || !writeopen
      ensures out == Done ==> |bytes| == Least(n, |accepted| - |old(delivered)|) && writers == {} && readers == old(readers)
      ensures out == Done && n > 0 && bytes == [] ==> old(delivered) == accepted && !writeopen
      ensures out == Failed <==> out != Done && killed
      ensures out != Done ==> bytes == [] && writers == old(writers)
      ensures out == Failed ==> readers == old(readers)
      ensures out == Asleep ==> readers == old(readers) + {pid}
      ensures readopen == old(readopen) && writeopen == old(writeopen)
    {
      hide Ring, Wrap;
      bytes := [];
      Apart(|delivered|, |accepted|);
      if nread == nwrite && writeopen {
        if killed { return bytes, Failed; }
        readers := readers + {pid};
        return bytes, Asleep;
      }
      while |bytes| < n
        invariant Valid() && |bytes| <= n && |delivered| <= |accepted|
        invariant delivered == old(delivered) + bytes
        invariant Now() == old(Now()).(delivered := delivered)
        decreases n - |bytes|
      {
        Apart(|delivered|, |accepted|);
        if nread == nwrite { break; }
        var b := Get();
        bytes := bytes + [b];
      }
      writers := {};
      return bytes, Done;
    }

    /** pipeclose. */
    method Pipeclose(writable: bool)
      requires Valid()
      modifies `readopen, `writeopen, `readers, `writers
      ensures Valid() && Now() == Next(old(Now()), Close(writable))
      ensures writable ==> !writeopen && readers == {} && readopen == old(readopen) && writers == old(writers)
      ensures !writable ==> !readopen && writers == {} && writeopen == old(writeopen) && readers == old(readers)
    {
      hide Ring, Wrap;
      if writable {
        writeopen := false;
        readers := {};
      } else {
        readopen := false;
        writers := {};
      }
    }
  }
}
