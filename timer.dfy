/**
 The program proper: the timer record with its mapped register block and
 interrupt channel, the register accessors, configure/start/read, the
 interrupt handler and the measurement sequence of the main program.
 */
module AxiTimer {
  import opened Registers
  import opened Sampling
  import opened Protocol

  /** The timer record: register block, period, running bounds, channel state. */
  class Timer {
    /** The mapped register block (word-addressed). */
    const bas: array<Word>
    var periodTicks: Word
    var maxlat: Word
    var minlat: Word
    var maxper: int
    var minper: int
    var nloops: nat
    var lastTime: Timespec
    /** Whether the interrupt channel will deliver the next notification. */
    var irqArmed: bool
    /** Every register access and channel transfer so far, oldest first. */
    ghost var log: seq<Event>

    ghost predicate Valid()
      reads this
    {
      bas.Length >= BLOCK_WORDS
    }

    /** The measurement fields as a value. */
    function Measurements(): Stats
      reads this
    {
      Stats(maxlat, minlat, maxper, minper, lastTime)
    }

    /** The record as initialised once the block is mapped and the period known. */
    constructor (block: array<Word>, ticks: Word, loops: nat)
      requires block.Length >= BLOCK_WORDS
      ensures Valid() && bas == block && periodTicks == ticks && nloops == loops
      ensures Measurements() == INITIAL
      ensures !irqArmed && log == []
    {
      bas := block;
      periodTicks := ticks;
      nloops := loops;
      maxlat := 0;
      minlat := 0xFFFF_FFFF;
      maxper := 0;
      minper := MIN_PERIOD_SENTINEL;
      lastTime := Timespec(0, 0);
      irqArmed := false;
      log := [];
    }

    /** Stores `val` in the word at `off`. */
    method Wr(off: nat, val: Word)
      requires Valid() && off < BLOCK_WORDS
      modifies bas, this`log
      ensures bas[..] == old(bas[..])[off := val]
      ensures log == old(log) + [Write(off, val)]
    {
      bas[off] := val;
      log := log + [Write(off, val)];
    }

    /** Returns the word at `off`. */
    method Rd(off: nat) returns (val: Word)
      requires Valid() && off < BLOCK_WORDS
      modifies this`log
      ensures val == bas[off]
      ensures log == old(log) + [Read(off, val)]
    {
      val := bas[off];
      log := log + [Read(off, val)];
    }

    /** Halts the counter, loads the period and clears a pending interrupt. */
    method TimerConfig()
      requires Valid()
      modifies bas, this`log
      ensures bas[..] == old(bas[..])[TLR0 := periodTicks][TCSR0 := CONFIG_WORD]
      ensures log == old(log) + [Write(TLR0, periodTicks), Write(TCSR0, CONFIG_WORD)]
    {
      ConfigWordValue();
      Wr(TLR0, periodTicks);
      Wr(TCSR0, WordOr(WordOr(TCSR_CONFIG, TCSR_LOAD), TCSR_IRQ));
    }

    /** Starts counting down, with interrupts and auto-reload enabled. */
    method TimerStart()
      requires Valid()
      modifies bas, this`log
      ensures bas[..] == old(bas[..])[TCSR0 := START_WORD]
      ensures Bit(bas[TCSR0], ENT_BIT) && !Bit(bas[TCSR0], LOAD_BIT)
      ensures log == old(log) + [Write(TCSR0, START_WORD)]
    {
      StartWordValue();
      StartWordBits();
      Wr(TCSR0, WordOr(TCSR_CONFIG, TCSR_ENT));
    }

    /** The live counter value. */
    method TimerRead() returns (counter: Word)
      requires Valid()
      modifies this`log
      ensures counter == bas[TCR0]
      ensures log == old(log) + [Read(TCR0, counter)]
    {
      counter := Rd(TCR0);
    }

    /** Re-enables delivery of the next interrupt notification. */
    method UioIrqEnable()
      modifies this`irqArmed, this`log
      ensures irqArmed
      ensures log == old(log) + [IrqRearm]
    {
      irqArmed := true;
      log := log + [IrqRearm];
    }

    /**
     Waits for and consumes one interrupt notification.  A wait on a
     channel that is not armed never returns, hence the precondition.
     */
    method UioIrqWait()
      requires irqArmed
      modifies this`irqArmed, this`log
      ensures !irqArmed
      ensures log == old(log) + [IrqWait]
    {
      irqArmed := false;
      log := log + [IrqWait];
    }

    /**
     Stands for the hardware: the live down-counter shows `counter` when the
     next interrupt is handled.  No program code corresponds to it.
     */
    method LatchCounter(counter: Word)
      requires Valid()
      modifies bas
      ensures bas[..] == old(bas[..])[TCR0 := counter]
    {
      bas[TCR0] := counter;
    }

    /** Clears the interrupt status by read-modify-write of the control word. */
    method AcknowledgeIrq()
      requires Valid()
      modifies bas, this`log
      ensures bas[..] == old(bas[..])[TCSR0 := Acknowledge(old(bas[TCSR0]))]
      ensures log == old(log) + [Read(TCSR0, old(bas[TCSR0])), Write(TCSR0, Acknowledge(old(bas[TCSR0])))]
    {
      var csr := Rd(TCSR0);
      csr := WordOr(csr, TCSR_IRQ);
      Wr(TCSR0, csr);
    }

    /**
     Handles one interrupt: consume the notification, read the counter,
     acknowledge by read-modify-write, re-arm, then fold the latency and the
     period since the previous call into the running bounds.
     */
    method IrqHandler(now: Timespec)
      requires Valid() && irqArmed
      modifies this, bas
      ensures Valid() && irqArmed
      ensures periodTicks == old(periodTicks) && nloops == old(nloops)
      ensures Measurements() == Step(old(Measurements()), periodTicks, Sample(old(bas[TCR0]), now))
      ensures bas[..] == old(bas[..])[TCSR0 := Acknowledge(old(bas[TCSR0]))]
      ensures log == old(log) + HandlerEvents(old(bas[TCR0]), old(bas[TCSR0]))
    {
      ghost var s0 := Measurements();
      ghost var x := Sample(bas[TCR0], now);
      UioIrqWait();
      var counter := TimerRead();
      var latency := Latency(periodTicks, counter);
      AcknowledgeIrq();
      UioIrqEnable();
      ghost var events := log;
      assert events == old(log) + HandlerEvents(x.counter, old(bas[TCSR0]));
      assert bas[..] == old(bas[..])[TCSR0 := Acknowledge(old(bas[TCSR0]))];
      assert latency == SampleLatency(periodTicks, x);
      if latency > maxlat {
        maxlat := latency;
      }
      if latency < minlat {
        minlat := latency;
      }
      assert maxlat == RaiseMax(s0.maxlat, latency) && minlat == LowerMin(s0.minlat, latency);
      if lastTime.sec > 0 {
        var period := PeriodDelta(now, lastTime);
        if period > maxper {
          maxper := period;
        }
        if period < minper {
          minper := period;
        }
        assert maxper == RaiseMax(s0.maxper, period) && minper == LowerMin(s0.minper, period);
        assert Stats(maxlat, minlat, maxper, minper, now) == Step(s0, periodTicks, x);
      } else {
        assert Stats(maxlat, minlat, maxper, minper, now) == Step(s0, periodTicks, x);
      }
      lastTime := now;
    }
  
    /**
     One timer interrupt: the hardware latches `x.counter` in the live
     counter, then the handler runs at clock reading `x.now`.
     */
    method Interrupt(x: Sample)
      requires Valid() && irqArmed
      modifies this, bas
      ensures Valid() && irqArmed
      ensures periodTicks == old(periodTicks) && nloops == old(nloops)
      ensures Measurements() == Step(old(Measurements()), periodTicks, x)
      ensures bas[..] == old(bas[..])[TCR0 := x.counter][TCSR0 := Acknowledge(old(bas[TCSR0]))]
      ensures log == old(log) + HandlerEvents(x.counter, old(bas[TCSR0]))
    {
      LatchCounter(x.counter);
      IrqHandler(x.now);
    }

    /** Configure, arm the interrupt channel, start the timer. */
    method Setup()
      requires Valid()
      modifies bas, this`log, this`irqArmed
      ensures irqArmed
      ensures bas[..] == old(bas[..])[TLR0 := periodTicks][TCSR0 := START_WORD]
      ensures log == old(log) + SetupEvents(periodTicks)
    {
      TimerConfig();
      UioIrqEnable();
      TimerStart();
    }

    /**
     Handles one interrupt per sample, the hardware latching each sample's
     counter value before the call that reads it.
     */
    method HandleInterrupts(samples: seq<Sample>)
      requires Valid() && irqArmed
      requires |samples| == nloops
      requires bas[TCSR0] == START_WORD
      modifies this, bas
      ensures Valid() && irqArmed
      ensures periodTicks == old(periodTicks) && nloops == old(nloops)
      ensures Measurements() == Run(old(Measurements()), periodTicks, samples)
      ensures log == old(log) + HandlerRounds(samples)
      ensures bas[..] == BlockAfter(old(bas[..]), samples)
      ensures bas[TCSR0] == RoundCsr(|samples|)
    {
      ghost var stats0, log0, block0 := Measurements(), log, bas[..];
      var i := 0;
      while i < nloops
        invariant 0 <= i <= nloops == |samples|
        invariant Valid() && irqArmed
        invariant periodTicks == old(periodTicks) && nloops == old(nloops)
        invariant Measurements() == Run(stats0, periodTicks, samples[..i])
        invariant log == LogAfter(log0, samples[..i])
        invariant bas[..] == BlockAfter(block0, samples[..i])
      {
        BlockAfterWords(block0, samples[..i]);
        Interrupt(samples[i]);
        RunPrefixStep(stats0, periodTicks, samples, i);
        LogAfterPrefix(log0, samples, i);
        BlockAfterPrefix(block0, samples, i);
        i := i + 1;
      }
      assert samples[..i] == samples;
      LogAfterAppends(log0, samples);
      BlockAfterWords(block0, samples);
    }
  }

  /**
   The measurement: set up the record, configure, arm, start, handle one
   interrupt per sample, and read the counter once more for the report.
   The samples are what the hardware and the clock supply.
   */
  method Measure(block: array<Word>, periodTicks: Word, nloops: nat, samples: seq<Sample>)
    returns (t: Timer, counterNow: Word)
    requires block.Length >= BLOCK_WORDS
    requires |samples| == nloops
    modifies block
    ensures fresh(t) && t.bas == block && t.irqArmed
    ensures t.periodTicks == periodTicks && t.nloops == nloops
    ensures t.Measurements() == Run(INITIAL, periodTicks, samples)
    ensures forall i :: 0 <= i < |samples| ==>
      t.minlat <= SampleLatency(periodTicks, samples[i]) <= t.maxlat
    ensures forall i :: 0 <= i < |samples| && PeriodSampled(INITIAL, samples, i) ==>
      t.minper <= SamplePeriod(INITIAL, samples, i) <= t.maxper
    ensures t.log == SetupEvents(periodTicks) + HandlerRounds(samples) + [Read(TCR0, counterNow)]
    ensures block[TLR0] == periodTicks
    ensures block[TCSR0] == RoundCsr(nloops)
    ensures counterNow == block[TCR0]
    ensures block[TCR0] == if nloops == 0 then old(block[TCR0]) else samples[nloops - 1].counter
    ensures block[BLOCK_WORDS..] == old(block[BLOCK_WORDS..])
  {
    t := new Timer(block, periodTicks, nloops);
    t.Setup();
    ghost var setup := t.log;
    assert setup == SetupEvents(periodTicks);
    ghost var started := block[..];
    t.HandleInterrupts(samples);
    BlockAfterWords(started, samples);
    ghost var rounds := t.log;
    assert rounds == setup + HandlerRounds(samples);
    counterNow := t.TimerRead();
    assert t.log == rounds + [Read(TCR0, counterNow)];
    RunEncloses(INITIAL, periodTicks, samples);
  }
}
