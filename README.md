# AXI timer interrupt-latency probe, modelled in Dafny

`software/axi-timer.c` is a small user-space program for a Xilinx AXI
Timer that is mapped through a UIO device. It does four things:

- it loads the reload register with the period in ticks;
- it configures the timer to count down with auto-reload and interrupts;
- it handles a fixed number of interrupts;
- on each interrupt it records the interrupt latency and the period between interrupts.

The latency is the number of ticks the down-counter has run since the last
reload. The period is measured with a monotonic clock. The program keeps
the smallest and the largest value of each.

The model has four modules:

- `Registers` (`registers.dfy`): register words as integers in `[0, 2^32)`,
  with a bitwise OR (`Or`, `WordOr`) and bit selection (`Bit`). It also holds
  the word offsets of the register block and the control/status masks. It
  proves that the words `timer_config` and `timer_start` compute are
  0x172 and 0xD2. It defines the read-modify-write acknowledge and proves
  its properties.
- `Sampling` (`sampling.dfy`): the pure arithmetic of the handler.
  - the 32-bit latency;
  - the seconds/nanoseconds borrow and the period;
  - running maximum and minimum;
  - `Step`, the effect of one handler call on the measurement record;
  - `Run`, a sequence of calls, with lemmas saying that the bounds enclose every sample.
- `Protocol` (`protocol.dfy`): every register access and interrupt-channel
  transfer as an `Event`. It states the events one set-up and one handler
  call produce, and what a sequence of handler calls leaves in the register
  block. It also has a state machine for the UIO channel: a notification is
  delivered only while the channel is armed. It proves that the program's
  order of calls never waits on an unarmed channel.
- `AxiTimer` (`timer.dfy`): the timer record as a class.
  - The register block is an `array<Word>`. The measurement fields and the
    channel state are fields of the class.
  - A ghost `log` records every access.
  - The methods are those of the program: `WR`, `RD`, `timer_config`,
    `timer_start`, `timer_read`, `uio_irq_enable`, the wait on the UIO
    descriptor, and `irq_handler`.
  - `Measure` is the part of `main` that configures, arms, starts, loops
    over the handler and reads the counter. It is proved against
    `Sampling.Run` and the `Protocol` event sequences.

Inputs the program reads from the outside become parameters:

- the value the hardware counter shows when an interrupt is handled. A
  `LatchCounter` method stands for the hardware storing it in the block;
  no program code corresponds to it.
- the monotonic clock reading of each handler call.
- the period in ticks.

The pair of these two for one handler call is a `Sampling.Sample`.

The comment at `software/axi-timer.c:134` says the first iteration computes
no period. The test at `:135` is `lastTime.tv_sec > 0`, so a stored reading
whose seconds field is 0 also counts as no previous reading.
`Sampling.HasPrevious` is that test.

## Model

| member | source | states |
|---|---|---|
| Registers.TCSR0 | software/axi-timer.c:15 | the control/status register is word 0 of the block |
| Registers.TLR0 | software/axi-timer.c:26 | the reload register is word 1 of the block |
| Registers.TCR0 | software/axi-timer.c:27 | the counter register is word 2 of the block |
| Registers.MaskBits | software/axi-timer.c:16-21 | the masks IRQ 0x100, ENT 0x080, ENIT 0x040, LOAD 0x020, ARHT 0x010 and UDT 0x002 are each the single bit 8, 7, 6, 5, 4 and 1 |
| Registers.WordOr | software/axi-timer.c:118 | the OR of two words is a word whose bit k is set exactly when bit k of either operand is set |
| Registers.ConfigMaskValue | software/axi-timer.c:24 | TCSR_CONFIG, the OR of ENIT, ARHT and UDT, is 0x52 |
| Registers.ConfigWordValue | software/axi-timer.c:56-61 | the word `timer_config` writes, CONFIG, LOAD and IRQ ORed together, is 0x172 |
| Registers.StartWordValue | software/axi-timer.c:63-66 | the word `timer_start` writes, CONFIG and ENT ORed together, is 0xD2 |
| Registers.ConfigWordBits | software/axi-timer.c:15-24 | the configuration word sets exactly ENIT, ARHT, UDT, LOAD and IRQ; in particular not ENT, so the timer stays halted |
| Registers.StartWordBits | software/axi-timer.c:17-24 | the start word sets exactly ENIT, ARHT, UDT and ENT; in particular LOAD is released and IRQ is not written |
| Registers.Acknowledge | software/axi-timer.c:116-119 | the word written back sets the IRQ bit and keeps every other bit of the word read |
| Registers.AcknowledgeIdempotent | software/axi-timer.c:116-119 | acknowledging twice gives the same word as acknowledging once |
| Registers.AcknowledgePending | software/axi-timer.c:116-119 | a word whose IRQ bit is already set is written back unchanged |
| Registers.AcknowledgeKeepsRunning | software/axi-timer.c:116-119 | the acknowledge keeps ENT, ENIT, ARHT and UDT set and leaves a clear LOAD bit clear, so the running timer is not disturbed |
| Registers.AcknowledgeStartWord | software/axi-timer.c:117-119 | after `timer_start`, the handler writes 0x1D2 back |
| Sampling.Latency | software/axi-timer.c:115 | the latency is `periodTicks - counter` modulo 2^32; it equals the plain difference when the counter has not passed the period, and exceeds the period when it has |
| Sampling.LatencyExamples | software/axi-timer.c:115 | with 100000 ticks per period, counters 99990, 99995, 100000 and 5 give latencies 10, 5, 0 and 99995, and 100001 wraps to 0xFFFFFFFF |
| Sampling.Borrow | software/axi-timer.c:136-141 | the borrowed (seconds, nanoseconds) pair denotes the same difference of instants, and its nanoseconds lie in [0, 1e9) for normalised readings |
| Sampling.PeriodDelta | software/axi-timer.c:136-144 | the period is the difference of the two instants in nanoseconds |
| Sampling.PeriodExample | software/axi-timer.c:136-144 | from (10 s, 999999900 ns) to (11 s, 100 ns) the borrow gives (0, 200) and the period is 200 ns |
| Sampling.RaiseMax | software/axi-timer.c:122-124 | the new maximum is at least the old bound and the new value, and is one of them |
| Sampling.LowerMin | software/axi-timer.c:125-127 | the new minimum is at most the old bound and the new value, and is one of them |
| Sampling.HasPrevious | software/axi-timer.c:134-135 | a period is measured only when the stored reading's seconds field is positive; used by `Step` and `StepBounds` |
| Sampling.Step | software/axi-timer.c:115-152 | one handler call on the record: latency bounds raised and lowered, period bounds updated when `HasPrevious`, reading stored; no contract of its own, its properties are proved in `Sampling.StepBounds` and `Sampling.FirstCallNoPeriod`, and `AxiTimer.Timer.IrqHandler` is proved equal to it |
| Sampling.Run | software/axi-timer.c:229-231 | one `Step` per sample, in order; no contract of its own, its properties are proved in `Sampling.RunEncloses`, `Sampling.RunAttained`, `Sampling.RunMonotone`, `Sampling.RunLastTime` and `Sampling.RunExample`, and `AxiTimer.Timer.HandleInterrupts` is proved equal to it |
| Sampling.StepBounds | software/axi-timer.c:122-152 | one handler call: the latency bounds enclose the new latency and are attained; the period bounds enclose the new period when a previous reading exists and are untouched otherwise; the reading is stored |
| Sampling.FirstCallNoPeriod | software/axi-timer.c:134-135 | from the initial record, the first call measures no period and stores its reading |
| Sampling.RunLastTime | software/axi-timer.c:152 | after a run, the stored reading is the last sample's |
| Sampling.RunMonotone | software/axi-timer.c:122-150 | over a run the bounds only widen |
| Sampling.RunEncloses | software/axi-timer.c:229-231 | after a run the latency bounds enclose every sample's latency, and the period bounds enclose every period that was measured |
| Sampling.RunAttained | software/axi-timer.c:122-127 | after a run each latency bound is its initial value or some sample's latency |
| Sampling.RunExample | software/axi-timer.c:229-231 | the four-sample example ends with a maximum latency of 99995, a minimum of 0, periods between 200 and 1000000 ns, and the last reading stored |
| Protocol.SetupEvents | software/axi-timer.c:225-228 | the events before the first interrupt: reload write (:58), control write of 0x172 (:60), re-arm (:78), control write of 0xD2 (:65); no contract of its own, `AxiTimer.Timer.Setup` is proved to produce it and `Protocol.MeasurementNeverStalls` is about it |
| Protocol.HandlerEvents | software/axi-timer.c:111-121 | the events of one handler call: wait, counter read, control read, acknowledged control write, re-arm; no contract of its own, `AxiTimer.Timer.IrqHandler` is proved to produce it and `Protocol.HandlerEventsKeepArmed` is about it |
| Protocol.LogAfterAppends | software/axi-timer.c:229-231 | the log after a sequence of handler calls is the old log followed by one handler round per sample |
| Protocol.BlockAfterWords | software/axi-timer.c:115-119 | from the start word, handler calls leave 0xD2 (no call) or 0x1D2 in the control word, the reload word unchanged, the last sample's value in the counter, and every other word untouched |
| Protocol.HandlerEventsKeepArmed | software/axi-timer.c:111-121 | one handler call on an armed channel consumes the notification and leaves the channel armed |
| Protocol.HandlerRoundsCounts | software/axi-timer.c:229-231 | n handler calls issue exactly n waits and n re-arms |
| Protocol.HandlerRoundsKeepArmed | software/axi-timer.c:229-231 | an armed channel stays armed across any number of handler calls |
| Protocol.MeasurementNeverStalls | software/axi-timer.c:225-231 | set-up then n handler calls, from a channel that is not stalled, leave the channel armed, with n waits and n + 1 re-arms |
| Protocol.NoRearmKeepsUnarmed | software/axi-timer.c:111-114 | a channel that is not armed stays unarmed until it is re-armed |
| Protocol.MissingRearmStalls | software/axi-timer.c:111-121 | two waits with no re-arm between them make the second wait never return |
| AxiTimer.Timer.constructor | software/axi-timer.c:166-177 | the record starts with maximum latency 0, minimum latency 2^32 - 1, maximum period 0, minimum period 1e20, no stored reading, and the channel unarmed |
| AxiTimer.Timer.Wr | software/axi-timer.c:46-49 | the word at the offset becomes the value; nothing else in the block changes |
| AxiTimer.Timer.Rd | software/axi-timer.c:51-54 | returns the word at the offset and changes no word |
| AxiTimer.Timer.TimerConfig | software/axi-timer.c:56-61 | writes the period to the reload word, then 0x172 to the control word; nothing else changes |
| AxiTimer.Timer.TimerStart | software/axi-timer.c:63-66 | writes 0xD2 to the control word, which sets ENT and clears LOAD; nothing else changes |
| AxiTimer.Timer.TimerRead | software/axi-timer.c:68-71 | returns the counter word |
| AxiTimer.Timer.UioIrqEnable | software/axi-timer.c:74-82 | arms the interrupt channel |
| AxiTimer.Timer.UioIrqWait | software/axi-timer.c:111-114 | consumes the notification of an armed channel, leaving it unarmed |
| AxiTimer.Timer.AcknowledgeIrq | software/axi-timer.c:116-119 | reads the control word and writes its acknowledge back; nothing else in the block changes |
| AxiTimer.Timer.IrqHandler | software/axi-timer.c:102-153 | the record becomes `Step` of the old record and the counter read before the acknowledge; the control word is acknowledged; the channel is armed again; the log gains wait, counter read, control read, control write and re-arm, in that order |
| AxiTimer.Timer.Interrupt | software/axi-timer.c:229-230 | one loop iteration, with the counter showing the sample's value: the record becomes `Step` of that sample |
| AxiTimer.Timer.Setup | software/axi-timer.c:225-228 | configure, re-arm, start: the block holds the period and 0xD2, the channel is armed, and the log follows that order |
| AxiTimer.Timer.HandleInterrupts | software/axi-timer.c:229-231 | after nloops handler calls the record is `Run` over the samples, the block is `BlockAfter` of them with the control word as `RoundCsr` gives it, and the log gains one handler round per sample |
| AxiTimer.Measure | software/axi-timer.c:223-233 | the whole measurement: the record is `Run` from the initial record; the bounds enclose every latency and every measured period; the log is set-up, then the rounds, then the final counter read; the record keeps the given period and loop count; the block's final words are stated |

## Left out

- Option parsing and usage text (`software/axi-timer.c:84-100`, `:179-209`): command-line handling. `fClk`, `period`, `nloops` and the device name only feed values that the model takes as parameters.
- Opening and mapping the device, and the clean-up at `bail` (`:211-221`, `:239-246`): operating-system calls. The model starts from an already mapped block of at least three words.
- The abort on a short read or write of the UIO descriptor (`:76-81`, `:111-114`) and on a failing `clock_gettime` (`:129-132`): the model treats these calls as succeeding. The clock reading is an input of `IrqHandler`.
- The count value the UIO read returns: the program ignores it, and so does the model.
- `round(fClk * period)` (`:223`): floating point. The period in ticks is a parameter of `Measure`.
- The final `printf` lines and their microsecond conversions (`:233-237`): output only. The counter read at `:233` is modelled; the conversions are not.
- Hardware behaviour. The block is plain memory: a write stores a word and a read returns it. The model does not capture that writing 1 to IRQ clears the status, that the counter counts down and reloads on its own, or that `volatile` accesses can see concurrent changes. `AxiTimer.Timer.LatchCounter` stands for the hardware setting the counter before each handler call.
- AxiTimer.Timer.UioIrqWait: requires an armed channel. On a channel that is not armed, the program's read blocks forever; `Protocol.MissingRearmStalls` describes that case on the event level.
- Sampling.PeriodDelta: the program computes the period in `double` and the model in whole nanoseconds as `int`, so rounding of large periods is not modelled. The `int32_t` truncation of `tv_sec` (`:141`) is not modelled either: seconds are unbounded integers.
- Sampling.Stats: the period bounds `maxper` and `minper` are `double` in the program and integers here. The initial minimum of 1.0E20 is the integer 10^20.
