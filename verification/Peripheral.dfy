/** The device object of vdev/vdev.cc with its register, and the driver functions of
    binnet/peripheral.c, which poll it. */
module Peripheral {
  import opened Bytes
  import opened Rram
  import opened AiChip
  import opened VirtualDevice

  class Board {
    const chip: Device
    const delaySet: nat
    var pmem: bv8
    var exec: Exec
    var pending: bool
    /** Ticks until the scheduled event. */
    var remaining: nat
    /** Ticks of simulated time so far. */
    ghost var now: nat
    ghost var executed: seq<Byte>
    ghost var discarded: nat

    ghost function Repr(): set<object> {
      {this} + chip.Repr()
    }

    ghost predicate Is(d: Dev)
      reads this, chip.Repr(), chip.rram.Repr()
    {
      && this !in chip.Repr() && chip.Is(d.chip)
      && pmem == d.pmem && exec == d.exec && pending == d.pending
      && executed == d.executed && discarded == d.discarded
    }

    constructor (o: Arith, loadOnce: bool, tickPerCycle: nat, delaySet: nat)
      ensures chip.rram.Valid() && Is(PowerOn(chip.Snapshot())) && fresh(Repr())
      ensures chip.o == o && chip.loadOnce == loadOnce && !chip.weightLoaded
    {
      chip := new Device(o, loadOnce, tickPerCycle);
      this.delaySet := delaySet;
      pmem, exec, pending, remaining := READY | FINISH, PowerOff, false, 0;
      executed, discarded, now := [], 0, 0;
    }

    /** The ticks from a request to its interrupt. */
    ghost function Delay(cycles: nat): nat { delaySet + cycles * chip.tickPerCycle }

    /** A packet that writes offset 0. The interrupt is scheduled as many ticks ahead as the chip
        needs for the operation, and delaySet more. */
    method OnStatusWrite(b: bv8, ghost d: Dev)
      requires Is(d) && Consistent(d)
      modifies Repr()
      ensures Is(WriteStatus(chip.o, d, b)) && now == old(now)
      ensures b & SET != 0 && !d.pending ==>
        pending && remaining == Delay(RunStep(chip.o, d.chip).1)
      ensures b & SET == 0 || d.pending ==> remaining == old(remaining)
    {
      ConsistentMeans(d);
      hide RunStep, Proper, Device.Is;
      if b & SET != 0 {
        if pmem & WORK != 0 {
          discarded := discarded + 1;
        } else {
          exec := Active;
          pmem := pmem | WORK;
          pmem := pmem & !READY;
          pmem := pmem & !FINISH;
          executed := executed + [d.chip.counter];
          var delaySelf := chip.Run(d.chip);
          pending, remaining := true, delaySet + delaySelf;
        }
      }
    }

    /** A packet that writes offset 1. */
    method OnCounterWrite(c: Byte, ghost d: Dev)
      requires Is(d)
      modifies chip`counter
      ensures Is(WriteCounter(d, c))
    {
      chip.counter := c;
    }

    method TriggerInterrupt(ghost d: Dev)
      requires Is(d) && Consistent(d) && pending
      modifies this
      ensures Is(Fire(d)) && Consistent(Fire(d)) && !pending
      ensures now == old(now) && remaining == old(remaining)
    {
      exec := Idle;
      assert pmem & WORK != 0;
      pmem := pmem | READY;
      pmem := pmem & !WORK;
      if chip.finished { pmem := pmem | FINISH; }
      pending := false;
      NextConsistent(chip.o, d, Interrupt);
    }

    /** A packet that writes a memory window. */
    method OnMemoryWrite(off: nat, data: seq<Byte>, ghost d: Dev)
      requires Is(d) && off >= 2
      modifies chip.mem1, chip.mem2, chip.mem3
      ensures Is(d.(chip := WriteMemory(d.chip, off, data)))
    {
      hide Splice;
      if off < WINDOW + 2 {
        if off - 2 + |data| <= ACTIVATION { Copy(chip.mem1, off - 2, data); }
      } else if off < 2 * WINDOW + 2 {
        if off - WINDOW - 2 + |data| <= ACTIVATION { Copy(chip.mem2, off - WINDOW - 2, data); }
      } else {
        if off - 2 * WINDOW - 2 + |data| <= PARAMETERS { Copy(chip.mem3, off - 2 * WINDOW - 2, data); }
      }
    }

    method OnMemoryRead(off: nat, ghost d: Dev) returns (b: Byte)
      requires Is(d) && off >= 2
      ensures b == ReadMemory(d.chip, off)
    {
      if off < WINDOW + 2 {
        b := if off - 2 < ACTIVATION then chip.mem1[off - 2] else 0;
      } else if off < 2 * WINDOW + 2 {
        b := if off - WINDOW - 2 < ACTIVATION then chip.mem2[off - WINDOW - 2] else 0;
      } else {
        b := if off - 2 * WINDOW - 2 < PARAMETERS then chip.mem3[off - 2 * WINDOW - 2] else 0;
      }
    }

    /** The scheduled event goes off at its time, and otherwise a tick of simulated time passes. */
    method Tick(ghost d: Dev) returns (ghost e: Dev)
      requires Is(d) && Consistent(d)
      modifies this
      ensures Is(e) && Consistent(e) && e == (if d.pending && !pending then Fire(d) else d)
      ensures pending <==> old(pending) && old(remaining) > 0
      ensures pending ==> remaining == old(remaining) - 1
      ensures now == old(now) + if old(pending) && old(remaining) == 0 then 0 else 1
    {
      e := d;
      if pending && remaining == 0 {
        TriggerInterrupt(d);
        e := Fire(d);
      } else {
        if pending { remaining := remaining - 1; }
        now := now + 1;
      }
    }

    /** The polling loop of all driver functions: afterwards the device is ready, and a
        scheduled interrupt has gone off. */
    method AwaitReady(ghost d: Dev) returns (ghost e: Dev)
      requires Is(d) && Consistent(d)
      modifies this
      ensures Is(e) && Consistent(e) && !pending && e == (if d.pending then Fire(d) else d)
      ensures now == old(now) + (if old(pending) then old(remaining) else 0)
    {
      hide Device.Is, Consistent, Fire;
      e := d;
      ConsistentMeans(e);
      while pmem & READY == 0
        invariant Is(e) && Consistent(e)
        invariant e == if d.pending && !pending then Fire(d) else d
        invariant d.pending || !pending
        invariant pmem & READY != 0 <==> !pending
        invariant now + (if pending then remaining else 0) == old(now) + if d.pending then old(remaining) else 0
        decreases pending, remaining
      {
        ghost var f := Tick(e);
        ConsistentMeans(f);
        e := f;
      }
    }

    /** periInit on a ready device: exactly this request is executed, and it takes its time. */
    method PeriInit(counter: Byte, ghost d: Dev) returns (ghost e: Dev)
      requires Is(d) && Consistent(d) && !pending
      modifies Repr()
      ensures Is(e) && Consistent(e) && !pending
      ensures e.executed == d.executed + [counter] && e.discarded == d.discarded
      ensures Proper(d.chip) && e.chip == RunStep(chip.o, d.chip.(counter := counter)).0
      ensures now == old(now) + Delay(RunStep(chip.o, d.chip.(counter := counter)).1)
    {
      hide RunStep, Device.Is, Proper;
      ConsistentMeans(d);
      OnCounterWrite(counter, d);
      ghost var c := WriteCounter(d, counter);
      NextConsistent(chip.o, d, CounterWritten(counter));
      OnStatusWrite(SET, c);
      NextConsistent(chip.o, c, StatusWritten(SET));
      e := AwaitReady(WriteStatus(chip.o, c, SET));
    }

    /** The device after a pending interrupt, if any, has gone off. */
    ghost function Settled(d: Dev): Dev { if d.pending then Fire(d) else d }

    method PeriWrite(off: nat, data: seq<Byte>, ghost d: Dev) returns (ghost e: Dev)
      requires Is(d) && Consistent(d) && off >= 2
      modifies Repr()
      ensures Is(e) && Consistent(e) && !pending
      ensures e == Settled(d).(chip := WriteMemory(d.chip, off, data))
      ensures now == old(now) + (if old(pending) then old(remaining) else 0)
    {
      hide Splice, Device.Is;
      ghost var f := AwaitReady(d);
      OnMemoryWrite(off, data, f);
      NextConsistent(chip.o, f, MemoryWritten(off, data));
      e := f.(chip := WriteMemory(f.chip, off, data));
    }

    method PeriRead(off: nat, ghost d: Dev) returns (b: Byte, ghost e: Dev)
      requires Is(d) && Consistent(d) && off >= 2
      modifies this
      ensures Is(e) && Consistent(e) && !pending && e == Settled(d)
      ensures b == ReadMemory(d.chip, off)
      ensures now == old(now) + (if old(pending) then old(remaining) else 0)
    {
      hide Device.Is;
      e := AwaitReady(d);
      b := OnMemoryRead(off, e);
    }

    method PeriIsFinished(ghost d: Dev) returns (finished: bool)
      requires Is(d) && Consistent(d)
      ensures finished <==> !d.pending && (d.executed == [] || d.chip.finished)
    {
      ConsistentMeans(d);
      return pmem & FINISH != 0;
    }
  }
}
