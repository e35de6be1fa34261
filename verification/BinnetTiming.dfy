/** The loop body of binnet/main.cpp on the driver and the device themselves: the class of an image
    and the simulated time it takes. */
module BinnetTiming {
  import opened Bytes
  import opened Rram
  import opened AiChip
  import opened BinaryNet
  import opened VirtualDevice
  import opened Peripheral
  import opened BinnetHost

  lemma CountSnoc(executed: seq<Byte>, j: nat)
    requires 0 < j < 8
    ensures executed + CountTo(j) == executed + CountTo(j - 1) + [j]
  {
    assert CountTo(j) == CountTo(j - 1) + [j];
  }

  /** The ticks of a number of operations that take so many cycles together. */
  ghost function Ticks(delay: nat, perCycle: nat, operations: nat, cycles: nat): nat {
    operations * delay + cycles * perCycle
  }

  lemma TicksAdd(board: Board, operations: nat, cycles: nat, more: nat)
    ensures var delay, perCycle := board.delaySet, board.chip.tickPerCycle;
      && Ticks(delay, perCycle, 0, 0) == 0
      && Ticks(delay, perCycle, operations + 1, cycles + more)
         == Ticks(delay, perCycle, operations, cycles) + board.Delay(more)
  {}

  /** The inner loop: operations 1 to 7. */
  method RunOperations(board: Board, ghost d: Dev) returns (ghost e: Dev)
    requires board.Is(d) && Consistent(d) && !d.pending
    modifies board.Repr()
    ensures board.Is(e) && Consistent(e) && !e.pending && e.chip == RunTo(board.chip.o, d.chip, 7).0
    ensures e.executed == d.executed + CountTo(7) && e.discarded == d.discarded
    ensures board.now == old(board.now)
                         + Ticks(board.delaySet, board.chip.tickPerCycle, 7, RunTo(board.chip.o, d.chip, 7).1)
  {
    hide Device.Is, RunStep, Proper;
    var o := board.chip.o;
    e := d;
    assert d.executed + CountTo(0) == d.executed;
    TicksAdd(board, 0, 0, 0);
    for j := 1 to 8
      invariant board.Is(e) && Consistent(e) && !e.pending
      invariant e.chip == RunTo(o, d.chip, j - 1).0
      invariant e.executed == d.executed + CountTo(j - 1) && e.discarded == d.discarded
      invariant board.now == old(board.now)
                             + Ticks(board.delaySet, board.chip.tickPerCycle, j - 1, RunTo(o, d.chip, j - 1).1)
    {
      hide RunTo, CountTo, Ticks, Board.Delay, Consistent;
      StepTo(o, d.chip, j);
      TicksAdd(board, j - 1, RunTo(o, d.chip, j - 1).1, RunStep(o, e.chip.(counter := j)).1);
      CountSnoc(d.executed, j);
      e := board.PeriInit(j, e);
    }
  }

  /** Store an image, run operations 1 to 7 and read the class back: what it yields, and how much
      simulated time it takes. */
  method ClassifyOne(board: Board, image: seq<Byte>, ghost n: Net, ghost d: Dev) returns (found: Byte, ghost e: Dev)
    requires board.Is(d) && Consistent(d) && !d.pending && Lawful(board.chip.o)
    requires Prepared(board.chip.o, n, d.chip) && |image| == PIXELS
    modifies board.Repr()
    ensures board.Is(e) && Consistent(e) && !e.pending && Prepared(board.chip.o, n, e.chip)
    ensures found == Classify(board.chip.o, n, image)
    ensures e.executed == d.executed + CountTo(7) && e.discarded == d.discarded
    ensures board.now == old(board.now)
                         + Ticks(board.delaySet, board.chip.tickPerCycle, 7, 322 + 100000 * Loads(d.chip))
  {
    hide Lawful, Prepared, Device.Is, RunStep, Classify, Splice, RunTo, CountTo, Ticks, FirstLargest, Ordered;
    e := board.PeriWrite(IMAGE_WINDOW, image, d);
    assert e.chip == d.chip.(mem2 := Splice(d.chip.mem2, 0, image));
    ImageClassified(board.chip.o, n, d.chip, image);
    e := RunOperations(board, e);
    var finished := board.PeriIsFinished(e);
    assert finished;
    found, e := board.PeriRead(2, e);
  }
}
