/** The memory-mapped device of vdev/vdev.cc and the busy-waiting driver of
    binnet/peripheral.c. */
module VirtualDevice {
  import opened Bytes
  import opened Rram
  import opened AiChip

  const SET: bv8 := 0x01
  const WORK: bv8 := 0x02
  const READY: bv8 := 0x04
  const FINISH: bv8 := 0x08

  const WINDOW: nat := 1024 * 1024

  datatype Exec = PowerOff | Idle | Active

  /** The status register, the scheduled interrupt and the chip. The last two fields record
      what the chip was asked to execute, and the requests it was too busy for. */
  datatype Dev = Dev(pmem: bv8, exec: Exec, pending: bool, chip: Chip, executed: seq<Byte>, discarded: nat)

  function PowerOn(chip: Chip): Dev {
    Dev(READY | FINISH, PowerOff, false, chip, [], 0)
  }

  // ------------------------------------------------------------------------------------
  // The device
  // ------------------------------------------------------------------------------------

  /** A write of b to the status register. */
  function WriteStatus(o: Arith, d: Dev, b: bv8): Dev
    requires Proper(d.chip)
  {
    if b & SET == 0 then d
    else if d.pmem & WORK != 0 then d.(discarded := d.discarded + 1)
    else d.(exec := Active, pmem := (d.pmem | WORK) & !READY & !FINISH, chip := RunStep(o, d.chip).0,
            pending := true, executed := d.executed + [d.chip.counter])
  }

  function WriteCounter(d: Dev, c: Byte): Dev { d.(chip := d.chip.(counter := c)) }

  /** A write into one of the three memory windows. A copy past the end of a memory is undefined
      in the source; here it has no effect. */
  function WriteMemory(s: Chip, off: nat, data: seq<Byte>): Chip
    requires Proper(s)
  {
    if off < 2 then s
    else if off < WINDOW + 2 then
      if off - 2 + |data| <= ACTIVATION then s.(mem1 := Splice(s.mem1, off - 2, data)) else s
    else if off < 2 * WINDOW + 2 then
      if off - WINDOW - 2 + |data| <= ACTIVATION then s.(mem2 := Splice(s.mem2, off - WINDOW - 2, data)) else s
    else
      if off - 2 * WINDOW - 2 + |data| <= PARAMETERS then s.(mem3 := Splice(s.mem3, off - 2 * WINDOW - 2, data)) else s
  }

  function ReadMemory(s: Chip, off: nat): Byte
    requires Proper(s)
  {
    if off < 2 then 0
    else if off < WINDOW + 2 then if off - 2 < ACTIVATION then s.mem1[off - 2] else 0
    else if off < 2 * WINDOW + 2 then if off - WINDOW - 2 < ACTIVATION then s.mem2[off - WINDOW - 2] else 0
    else if off - 2 * WINDOW - 2 < PARAMETERS then s.mem3[off - 2 * WINDOW - 2] else 0
  }

  /** The window of an offset, and its size. */
  function WindowOf(off: nat): (nat, nat) {
    if off < WINDOW + 2 then (2, ACTIVATION)
    else if off < 2 * WINDOW + 2 then (WINDOW + 2, ACTIVATION)
    else (2 * WINDOW + 2, PARAMETERS)
  }

  /** What is written to a memory is read back from the same offsets, and all other offsets of
      the three memories read as before. */
  lemma ReadBack(s: Chip, off: nat, data: seq<Byte>, at: nat)
    requires Proper(s) && off >= 2 && at >= 2
    requires off + |data| <= WindowOf(off).0 + WindowOf(off).1
    ensures Proper(WriteMemory(s, off, data))
    ensures ReadMemory(WriteMemory(s, off, data), at)
         == if off <= at < off + |data| then data[at - off] else ReadMemory(s, at)
  {
    hide Splice, Fits;
    var base := WindowOf(off).0;
    var mem := if base == 2 then s.mem1 else if base == WINDOW + 2 then s.mem2 else s.mem3;
    if 0 <= at - base < |mem| { SpliceAt(mem, off - base, data, at - base); }
  }

  /** triggerInterrupt, which asserts that the device is working. */
  function Fire(d: Dev): Dev {
    var ready := (d.pmem | READY) & !WORK;
    d.(exec := Idle, pending := false, pmem := if d.chip.finished then ready | FINISH else ready)
  }

  /** Everything that can happen to the device, whatever the host program is. */
  datatype Event = StatusWritten(b: bv8) | CounterWritten(c: Byte) | MemoryWritten(off: nat, data: seq<Byte>)
                 | SomethingRead | Interrupt

  predicate Enabled(d: Dev, e: Event) { e.Interrupt? ==> d.pending }

  function Next(o: Arith, d: Dev, e: Event): Dev
    requires Proper(d.chip)
  {
    match e
    case StatusWritten(b) => WriteStatus(o, d, b)
    case CounterWritten(c) => WriteCounter(d, c)
    case MemoryWritten(off, data) => d.(chip := WriteMemory(d.chip, off, data))
    case SomethingRead => d
    case Interrupt => Fire(d)
  }

  /** Working, or ready: the register, the state and the scheduled event always agree. */
  ghost predicate Consistent(d: Dev) {
    && Proper(d.chip)
    && (d.pending <==> d.exec == Active)
    && (d.pending ==> d.pmem == WORK && d.executed != [])
    && (!d.pending ==> d.pmem == if d.executed == [] || d.chip.finished then READY | FINISH else READY)
  }

  /** What the register says in any consistent state. */
  lemma ConsistentMeans(d: Dev)
    requires Consistent(d)
    ensures (d.pmem & WORK != 0) != (d.pmem & READY != 0)
    ensures d.pmem & WORK != 0 <==> d.pending
    ensures d.pmem & FINISH != 0 ==> d.pmem & READY != 0
    ensures d.pmem & FINISH != 0 <==> !d.pending && (d.executed == [] || d.chip.finished)
  {}

  lemma NextConsistent(o: Arith, d: Dev, e: Event)
    requires Consistent(d) && Enabled(d, e)
    ensures Consistent(Next(o, d, e))
    ensures e.Interrupt? ==> d.pmem & WORK != 0
  {
    hide RunStep;
    RunProper(o, d.chip);
    match e
    case StatusWritten(b) => StatusConsistent(o, d, b);
    case MemoryWritten(off, data) =>
    case _ =>
  }

  lemma StatusConsistent(o: Arith, d: Dev, b: bv8)
    requires Consistent(d)
    ensures Consistent(WriteStatus(o, d, b))
  {
    hide RunStep;
    RunProper(o, d.chip);
    assert (READY | WORK) & !READY & !FINISH == WORK;
    assert (READY | FINISH | WORK) & !READY & !FINISH == WORK;
  }

  ghost function After(o: Arith, d: Dev, es: seq<Event>): Dev
    requires Proper(d.chip)
  {
    if es == [] then d
    else
      var before := After(o, d, es[..|es| - 1]);
      if Proper(before.chip) then Next(o, before, es[|es| - 1]) else before
  }

  ghost predicate Possible(o: Arith, d: Dev, es: seq<Event>)
    requires Proper(d.chip)
  {
    forall i :: 0 <= i < |es| ==> Enabled(After(o, d, es[..i]), es[i])
  }

  /** Every reachable state is consistent, and every interrupt finds its assertion true. */
  lemma {:induction false} AlwaysConsistent(o: Arith, chip: Chip, es: seq<Event>)
    requires Proper(chip) && Possible(o, PowerOn(chip), es)
    ensures Consistent(After(o, PowerOn(chip), es))
    ensures forall i :: 0 <= i < |es| && es[i].Interrupt? ==> After(o, PowerOn(chip), es[..i]).pmem & WORK != 0
  {
    hide Next, Proper;
    var d := PowerOn(chip);
    if es != [] {
      var n := |es| - 1;
      var front := es[..n];
      forall i | 0 <= i < n ensures Enabled(After(o, d, front[..i]), front[i]) {
        assert front[..i] == es[..i] && Enabled(After(o, d, es[..i]), es[i]);
      }
      AlwaysConsistent(o, chip, front);
      NextConsistent(o, After(o, d, front), es[n]);
      forall i | 0 <= i < |es| && es[i].Interrupt? ensures After(o, d, es[..i]).pmem & WORK != 0 {
        if i < n { assert front[..i] == es[..i]; }
      }
    }
  }

  // ------------------------------------------------------------------------------------
  // The driver, running beside the device
  // ------------------------------------------------------------------------------------

  /** The accesses a host program is made of. AwaitReady is one of the driver's polling loops;
      CheckFinished is the assertion of periIsFinished in main. */
  datatype Op = SetCounter(c: Byte) | Request | AwaitReady | Store(off: nat, data: seq<Byte>) | Fetch(off: nat)
              | CheckFinished

  function PeriInit(c: Byte): seq<Op> { [SetCounter(c), Request, AwaitReady] }
  function PeriWrite(off: nat, data: seq<Byte>): seq<Op> { [AwaitReady, Store(off, data)] }
  function PeriRead(off: nat): seq<Op> { [AwaitReady, Fetch(off)] }

  /** Host and device together: what the host still has to do, the bytes it has read, and
      whether an assertion of its own has failed. */
  datatype System = System(dev: Dev, todo: seq<Op>, got: seq<Byte>, failed: bool)

  /** One access of the host. A poll that does not find the device ready is repeated. */
  function HostStep(o: Arith, s: System): System
    requires Proper(s.dev.chip)
  {
    if s.todo == [] then s
    else
      var d, rest := s.dev, s.(todo := s.todo[1..]);
      match s.todo[0]
      case SetCounter(c) => rest.(dev := WriteCounter(d, c))
      case Request => rest.(dev := WriteStatus(o, d, SET))
      case AwaitReady => if d.pmem & READY != 0 then rest else s
      case Store(off, data) => rest.(dev := d.(chip := WriteMemory(d.chip, off, data)))
      case Fetch(off) => rest.(got := s.got + [ReadMemory(d.chip, off)])
      case CheckFinished => rest.(failed := s.failed || d.pmem & FINISH == 0)
  }

  function InterruptStep(s: System): System {
    if s.dev.pending then s.(dev := Fire(s.dev)) else s
  }

  /** Any interleaving: true stands for a step of the host, false for the time at which a
      scheduled interrupt, if there is one, goes off. */
  ghost function Interleave(o: Arith, s: System, schedule: seq<bool>): System
    requires Consistent(s.dev)
    decreases |schedule|
  {
    if schedule == [] then s
    else
      var t := if schedule[0] then HostStep(o, s) else InterruptStep(s);
      if Consistent(t.dev) then Interleave(o, t, schedule[1..]) else s
  }

  // ------------------------------------------------------------------------------------
  // The sequential program it should amount to
  // ------------------------------------------------------------------------------------

  /** The same operations when every request completes at once. */
  datatype Ideal = Ideal(chip: Chip, executed: seq<Byte>, got: seq<Byte>, failed: bool)

  function IdealStep(o: Arith, i: Ideal, op: Op): Ideal
    requires Proper(i.chip)
  {
    match op
    case SetCounter(c) => i.(chip := i.chip.(counter := c))
    case Request => i.(chip := RunStep(o, i.chip).0, executed := i.executed + [i.chip.counter])
    case AwaitReady => i
    case Store(off, data) => i.(chip := WriteMemory(i.chip, off, data))
    case Fetch(off) => i.(got := i.got + [ReadMemory(i.chip, off)])
    case CheckFinished => i.(failed := i.failed || (i.executed != [] && !i.chip.finished))
  }

  lemma IdealProper(o: Arith, i: Ideal, op: Op)
    requires Proper(i.chip)
    ensures Proper(IdealStep(o, i, op).chip)
  {
    hide RunStep;
    RunProper(o, i.chip);
  }

  function IdealRun(o: Arith, i: Ideal, ops: seq<Op>): (r: Ideal)
    requires Proper(i.chip)
    ensures Proper(r.chip)
    decreases |ops|
  {
    if ops == [] then i
    else
      IdealProper(o, i, ops[0]);
      IdealRun(o, IdealStep(o, i, ops[0]), ops[1..])
  }

  lemma {:induction false} IdealConcat(o: Arith, i: Ideal, a: seq<Op>, b: seq<Op>)
    requires Proper(i.chip)
    ensures IdealRun(o, i, a + b) == IdealRun(o, IdealRun(o, i, a), b)
    decreases |a|
  {
    if a == [] {
      assert a + b == b;
    } else {
      assert (a + b)[1..] == a[1..] + b && (a + b)[0] == a[0];
      IdealProper(o, i, a[0]);
      IdealConcat(o, IdealStep(o, i, a[0]), a[1..], b);
    }
  }

  function View(s: System): Ideal {
    Ideal(s.dev.chip, s.dev.executed, s.got, s.failed)
  }

  // ------------------------------------------------------------------------------------
  // The handshake
  // ------------------------------------------------------------------------------------

  /** Every request is followed by a wait, as periInit does it. */
  ghost predicate Polite(ops: seq<Op>) {
    forall i :: 0 <= i < |ops| && ops[i] == Request ==> i + 1 < |ops| && ops[i + 1] == AwaitReady
  }

  /** While the device works, the host waits. */
  ghost predicate Handshake(s: System) {
    && Consistent(s.dev) && Polite(s.todo)
    && (s.dev.pending ==> s.todo != [] && s.todo[0] == AwaitReady)
  }

  lemma PoliteTail(ops: seq<Op>)
    requires Polite(ops) && ops != []
    ensures Polite(ops[1..])
    ensures ops[0] == Request ==> |ops| > 1 && ops[1..][0] == AwaitReady
  {
    forall i | 0 <= i < |ops[1..]| && ops[1..][i] == Request
      ensures i + 1 < |ops[1..]| && ops[1..][i + 1] == AwaitReady
    {
      assert ops[i + 1] == Request;
    }
  }

  /** A step of the host is a step of the sequential program, or a poll that changes nothing. */
  lemma HostStepKeeps(o: Arith, s: System)
    requires Handshake(s)
    ensures var t := HostStep(o, s);
      && Handshake(t) && t.dev.discarded == s.dev.discarded
      && IdealRun(o, View(t), t.todo) == IdealRun(o, View(s), s.todo)
      && (s.todo != [] && !s.dev.pending ==> t.todo == s.todo[1..])
      && |t.todo| <= |s.todo|
  {
    hide RunStep, Proper, Splice, IdealRun;
    ConsistentMeans(s.dev);
    if s.todo != [] {
      PoliteTail(s.todo);
      if s.todo[0] == AwaitReady && s.dev.pending {
        assert HostStep(o, s) == s;
      } else {
        HostMoves(o, s);
        IdealUnfold(o, View(s), s.todo);
      }
    }
  }

  lemma IdealUnfold(o: Arith, i: Ideal, ops: seq<Op>)
    requires Proper(i.chip) && ops != []
    ensures Proper(IdealStep(o, i, ops[0]).chip)
    ensures IdealRun(o, i, ops) == IdealRun(o, IdealStep(o, i, ops[0]), ops[1..])
  {
    IdealProper(o, i, ops[0]);
  }

  lemma HostMoves(o: Arith, s: System)
    requires Consistent(s.dev) && !s.dev.pending && s.todo != []
    ensures var t := HostStep(o, s);
      && Consistent(t.dev) && t.dev.discarded == s.dev.discarded && t.todo == s.todo[1..]
      && View(t) == IdealStep(o, View(s), s.todo[0])
      && (t.dev.pending ==> s.todo[0] == Request)
  {
    hide RunStep, WriteMemory, ReadMemory;
    ConsistentMeans(s.dev);
    RunProper(o, s.dev.chip);
    match s.todo[0]
    case Request =>
      StatusConsistent(o, s.dev, SET);
    case Store(off, data) =>
      NextConsistent(o, s.dev, MemoryWritten(off, data));
      MemoryKeeps(s.dev.chip, off, data);
    case _ =>
  }

  lemma MemoryKeeps(s: Chip, off: nat, data: seq<Byte>)
    requires Proper(s)
    ensures WriteMemory(s, off, data).finished == s.finished && Proper(WriteMemory(s, off, data))
  {}

  lemma InterruptStepKeeps(o: Arith, s: System)
    requires Handshake(s)
    ensures var t := InterruptStep(s);
      && Handshake(t) && t.dev.discarded == s.dev.discarded && t.todo == s.todo && !t.dev.pending
      && View(t) == View(s)
  {
    hide RunStep, Proper;
    if s.dev.pending { NextConsistent(o, s.dev, Interrupt); }
  }

  /** Under every interleaving nothing is discarded, and what host and chip still have to
      compute together never changes. */
  lemma {:induction false} InterleaveKeeps(o: Arith, s: System, schedule: seq<bool>)
    requires Handshake(s)
    ensures var t := Interleave(o, s, schedule);
      && Handshake(t) && t.dev.discarded == s.dev.discarded
      && IdealRun(o, View(t), t.todo) == IdealRun(o, View(s), s.todo)
      && |t.todo| <= |s.todo|
    decreases |schedule|
  {
    hide HostStep, InterruptStep, IdealRun, Consistent, Polite;
    HandshakeConsistent(s);
    if schedule != [] {
      HostStepKeeps(o, s);
      InterruptStepKeeps(o, s);
      var t := if schedule[0] then HostStep(o, s) else InterruptStep(s);
      HandshakeConsistent(t);
      InterleaveKeeps(o, t, schedule[1..]);
    }
  }

  lemma HandshakeConsistent(s: System)
    requires Handshake(s)
    ensures Consistent(s.dev) && Proper(s.dev.chip)
  {}

  /** Once the host is through, the device has executed exactly the sequential program. */
  lemma FinishedMeansIdeal(o: Arith, chip: Chip, ops: seq<Op>, schedule: seq<bool>)
    requires Proper(chip) && Polite(ops)
    ensures Consistent(PowerOn(chip))
    ensures var t := Interleave(o, System(PowerOn(chip), ops, [], false), schedule);
      && t.dev.discarded == 0 && Consistent(t.dev)
      && (t.todo == [] ==> View(t) == IdealRun(o, Ideal(chip, [], [], false), ops))
  {
    hide HostStep, InterruptStep, Interleave;
    InterleaveKeeps(o, System(PowerOn(chip), ops, [], false), schedule);
  }

  /** A round: some polls, then the interrupt, then one more access. */
  function Round(polls: nat): seq<bool> {
    seq(polls, i => true) + [false, true]
  }

  function Rounds(polls: seq<nat>): seq<bool> {
    if polls == [] then [] else Round(polls[0]) + Rounds(polls[1..])
  }

  lemma {:induction false} InterleaveConcat(o: Arith, s: System, a: seq<bool>, b: seq<bool>)
    requires Handshake(s)
    ensures Consistent(s.dev) && Consistent(Interleave(o, s, a).dev)
    ensures Interleave(o, s, a + b) == Interleave(o, Interleave(o, s, a), b)
    decreases |a|
  {
    hide HostStep, InterruptStep, IdealRun, Polite, Consistent;
    HandshakeConsistent(s);
    if a == [] {
      assert a + b == b;
    } else {
      assert (a + b)[1..] == a[1..] + b && (a + b)[0] == a[0];
      HostStepKeeps(o, s);
      InterruptStepKeeps(o, s);
      var t := if a[0] then HostStep(o, s) else InterruptStep(s);
      HandshakeConsistent(t);
      InterleaveConcat(o, t, a[1..], b);
    }
  }

  /** Each round completes at least one operation, however long the device takes: the busy
      waiting ends as soon as the scheduled interrupt goes off. */
  lemma {:induction false} RoundsFinish(o: Arith, s: System, polls: seq<nat>)
    requires Handshake(s)
    ensures Consistent(s.dev)
    ensures |Interleave(o, s, Rounds(polls)).todo| <= (if |s.todo| <= |polls| then 0 else |s.todo| - |polls|)
    decreases |polls|
  {
    hide HostStep, InterruptStep, IdealRun, Polite, Consistent, Interleave, Rounds;
    HandshakeConsistent(s);
    if polls == [] {
      NoRounds(o, s);
    } else {
      var many := seq(polls[0], i => true);
      InterleaveKeeps(o, s, many);
      var t := Interleave(o, s, many);
      InterruptStepKeeps(o, t);
      HandshakeConsistent(t);
      var u := InterruptStep(t);
      HandshakeConsistent(u);
      HostStepKeeps(o, u);
      var v := HostStep(o, u);
      HandshakeConsistent(v);
      TwoSteps(o, t);
      InterleaveConcat(o, s, many, [false, true]);
      InterleaveConcat(o, s, Round(polls[0]), Rounds(polls[1..]));
      OneRound(polls);
      RoundsFinish(o, v, polls[1..]);
    }
  }

  lemma NoRounds(o: Arith, s: System)
    requires Consistent(s.dev)
    ensures Interleave(o, s, Rounds([])) == s
  {}

  lemma OneRound(polls: seq<nat>)
    requires polls != []
    ensures Rounds(polls) == Round(polls[0]) + Rounds(polls[1..])
  {}

  lemma TwoSteps(o: Arith, t: System)
    requires Consistent(t.dev) && Consistent(InterruptStep(t).dev) && Consistent(HostStep(o, InterruptStep(t)).dev)
    ensures Interleave(o, t, [false, true]) == HostStep(o, InterruptStep(t))
  {
    hide HostStep, InterruptStep, Consistent;
    assert [false, true][1..] == [true];
    assert [true][1..] == [];
  }
}
