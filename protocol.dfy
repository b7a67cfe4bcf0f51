/**
 The order of the program's dealings with the hardware: every register
 access and every interrupt-channel transfer as an event, the events one
 measurement produces, and a model of the interrupt channel that delivers a
 notification only while it is armed.
 */
module Protocol {
  import opened Registers
  import opened Sampling

  /** One access to the register block or to the interrupt channel. */
  datatype Event =
    | Read(offset: nat, value: Word)   // RD of a register word
    | Write(offset: nat, value: Word)  // WR of a register word
    | IrqWait                          // blocking read of one notification
    | IrqRearm                         // write of 1 re-enabling notification delivery

  /** Configure, re-arm the channel, start: what happens before the first interrupt. */
  function SetupEvents(reload: Word): seq<Event> {
    [Write(TLR0, reload), Write(TCSR0, CONFIG_WORD), IrqRearm, Write(TCSR0, START_WORD)]
  }

  /**
   One handler call: wait, read the counter, read-modify-write the control
   word, re-arm.
   */
  function HandlerEvents(counter: Word, csr: Word): seq<Event> {
    [IrqWait, Read(TCR0, counter), Read(TCSR0, csr), Write(TCSR0, Acknowledge(csr)), IrqRearm]
  }

  /**
   The control word the handler reads in call `k`: as started, then as
   acknowledged (0x1D2 is `Acknowledge(START_WORD)`, see `AcknowledgeStartWord`).
   */
  function RoundCsr(k: nat): Word {
    if k == 0 then START_WORD else 0x1D2
  }

  /** The events of one handler call per sample. */
  function HandlerRounds(xs: seq<Sample>): seq<Event>
    decreases |xs|
  {
    if xs == [] then []
    else HandlerRounds(xs[..|xs| - 1]) + HandlerEvents(xs[|xs| - 1].counter, RoundCsr(|xs| - 1))
  }

  /**
   The event log `log` extended by one handler call per sample.  It is
   `log + HandlerRounds(xs)` (`LogAfterAppends`), defined on its own so that
   the handler loop's invariant grows by one call per iteration without a
   step of concatenation associativity.
   */
  function LogAfter(log: seq<Event>, xs: seq<Sample>): seq<Event>
    decreases |xs|
  {
    if xs == [] then log
    else LogAfter(log, xs[..|xs| - 1]) + HandlerEvents(xs[|xs| - 1].counter, RoundCsr(|xs| - 1))
  }

  /** Extending the prefix by one sample appends one handler call to the log. */
  lemma LogAfterPrefix(log: seq<Event>, xs: seq<Sample>, i: nat)
    requires i < |xs|
    ensures LogAfter(log, xs[..i + 1]) == LogAfter(log, xs[..i]) + HandlerEvents(xs[i].counter, RoundCsr(i))
  {
    assert xs[..i + 1][..i] == xs[..i];
  }

  /** The extended log is the old log followed by the handler rounds. */
  lemma {:induction false} LogAfterAppends(log: seq<Event>, xs: seq<Sample>)
    ensures LogAfter(log, xs) == log + HandlerRounds(xs)
    decreases |xs|
  {
    if xs != [] {
      var n := |xs| - 1;
      LogAfterAppends(log, xs[..n]);
      var h := HandlerEvents(xs[n].counter, RoundCsr(n));
      assert (log + HandlerRounds(xs[..n])) + h == log + (HandlerRounds(xs[..n]) + h);
    }
  }

  /**
   The register block after one handler call per sample: before each call
   the counter shows the sample's value, and the call acknowledges the
   control word it reads.
   */
  function BlockAfter(b: seq<Word>, xs: seq<Sample>): (r: seq<Word>)
    requires |b| >= BLOCK_WORDS
    ensures |r| == |b|
    decreases |xs|
  {
    if xs == [] then b
    else
      var c := BlockAfter(b, xs[..|xs| - 1]);
      c[TCR0 := xs[|xs| - 1].counter][TCSR0 := Acknowledge(c[TCSR0])]
  }

  /** Extending the prefix by one sample is one more handler call on the block. */
  lemma BlockAfterPrefix(b: seq<Word>, xs: seq<Sample>, i: nat)
    requires |b| >= BLOCK_WORDS && i < |xs|
    ensures BlockAfter(b, xs[..i + 1])
      == BlockAfter(b, xs[..i])[TCR0 := xs[i].counter][TCSR0 := Acknowledge(BlockAfter(b, xs[..i])[TCSR0])]
  {
    assert xs[..i + 1][..i] == xs[..i];
  }

  /**
   Started from the word `timer_start` writes, the handler calls leave the
   control word as `RoundCsr` says, the reload word as it was, the last
   sample's value in the counter, and every word beyond the three untouched.
   */
  lemma {:induction false} BlockAfterWords(b: seq<Word>, xs: seq<Sample>)
    requires |b| >= BLOCK_WORDS && b[TCSR0] == START_WORD
    ensures BlockAfter(b, xs)[TCSR0] == RoundCsr(|xs|)
    ensures BlockAfter(b, xs)[TLR0] == b[TLR0]
    ensures BlockAfter(b, xs)[TCR0] == if xs == [] then b[TCR0] else xs[|xs| - 1].counter
    ensures BlockAfter(b, xs)[BLOCK_WORDS..] == b[BLOCK_WORDS..]
    decreases |xs|
  {
    if xs != [] {
      var n := |xs| - 1;
      var c := BlockAfter(b, xs[..n]);
      BlockAfterWords(b, xs[..n]);
      AcknowledgeStartWord();
      AcknowledgePending(0x1D2);
      var r := BlockAfter(b, xs);
      assert r == c[TCR0 := xs[n].counter][TCSR0 := Acknowledge(c[TCSR0])];
      assert r[BLOCK_WORDS..] == c[BLOCK_WORDS..];
    }
  }

  /** The states of the interrupt channel. */
  datatype Channel =
    | Disarmed  // the next wait blocks until re-armed
    | Armed     // the next interrupt will be delivered
    | Stalled   // a wait was issued while disarmed: it never returns

  /** What an event does to the channel. */
  function ChannelStep(c: Channel, e: Event): Channel {
    match e
    case IrqRearm => if c == Stalled then Stalled else Armed
    case IrqWait => if c == Armed then Disarmed else Stalled
    case _ => c
  }

  /** The channel after a sequence of events, taken first to last. */
  function ChannelAfter(c: Channel, log: seq<Event>): Channel
    decreases |log|
  {
    if log == [] then c else ChannelAfter(ChannelStep(c, log[0]), log[1..])
  }

  /** Running a concatenation is running its parts one after the other. */
  lemma {:induction false} ChannelAfterAppend(c: Channel, xs: seq<Event>, ys: seq<Event>)
    ensures ChannelAfter(c, xs + ys) == ChannelAfter(ChannelAfter(c, xs), ys)
    decreases |xs|
  {
    if xs == [] {
      assert xs + ys == ys;
    } else {
      assert (xs + ys)[1..] == xs[1..] + ys;
      ChannelAfterAppend(ChannelStep(c, xs[0]), xs[1..], ys);
    }
  }

  /** One handler call on an armed channel consumes the notification and re-arms. */
  lemma HandlerEventsKeepArmed(counter: Word, csr: Word)
    ensures ChannelAfter(Armed, HandlerEvents(counter, csr)) == Armed
  {
    var h := HandlerEvents(counter, csr);
    assert ChannelAfter(Disarmed, h[4..]) == Armed;
    assert ChannelAfter(Disarmed, h[3..]) == Armed;
    assert ChannelAfter(Disarmed, h[2..]) == Armed;
    assert ChannelAfter(Disarmed, h[1..]) == Armed;
  }

  /** The number of waits and re-arms the handler rounds issue ... */
  lemma {:induction false} HandlerRoundsCounts(xs: seq<Sample>)
    ensures multiset(HandlerRounds(xs))[IrqWait] == |xs|
    ensures multiset(HandlerRounds(xs))[IrqRearm] == |xs|
  {
    if xs != [] {
      HandlerRoundsCounts(xs[..|xs| - 1]);
    }
  }

  /** ... and an armed channel stays armed across them: no wait ever stalls. */
  lemma {:induction false} HandlerRoundsKeepArmed(xs: seq<Sample>)
    ensures ChannelAfter(Armed, HandlerRounds(xs)) == Armed
  {
    if xs != [] {
      var n := |xs| - 1;
      HandlerRoundsKeepArmed(xs[..n]);
      var h := HandlerEvents(xs[n].counter, RoundCsr(n));
      ChannelAfterAppend(Armed, HandlerRounds(xs[..n]), h);
      HandlerEventsKeepArmed(xs[n].counter, RoundCsr(n));
    }
  }

  /**
   The whole measurement, started on a channel in any state but stalled,
   re-arms once more than it waits and leaves the channel armed, so that
   the channel is armed before every wait.
   */
  lemma MeasurementNeverStalls(c: Channel, reload: Word, xs: seq<Sample>)
    requires c != Stalled
    ensures ChannelAfter(c, SetupEvents(reload) + HandlerRounds(xs)) == Armed
    ensures multiset(SetupEvents(reload) + HandlerRounds(xs))[IrqWait] == |xs|
    ensures multiset(SetupEvents(reload) + HandlerRounds(xs))[IrqRearm] == |xs| + 1
  {
    var setup := SetupEvents(reload);
    assert ChannelAfter(Armed, setup[3..]) == Armed;
    assert ChannelAfter(c, setup[2..]) == Armed;
    assert ChannelAfter(c, setup[1..]) == Armed;
    ChannelAfterAppend(c, setup, HandlerRounds(xs));
    HandlerRoundsKeepArmed(xs);
    HandlerRoundsCounts(xs);
  }

  /** A channel that is not armed stays unarmed across events that do not re-arm it. */
  lemma {:induction false} NoRearmKeepsUnarmed(c: Channel, ys: seq<Event>)
    requires c != Armed
    requires IrqRearm !in ys
    ensures ChannelAfter(c, ys) != Armed
    decreases |ys|
  {
    if ys != [] {
      NoRearmKeepsUnarmed(ChannelStep(c, ys[0]), ys[1..]);
    }
  }

  /** Two waits with no re-arm between them: the second never returns. */
  lemma MissingRearmStalls(c: Channel, xs: seq<Event>, ys: seq<Event>)
    requires IrqRearm !in ys
    ensures ChannelAfter(c, xs + [IrqWait] + ys + [IrqWait]) == Stalled
  {
    ChannelAfterAppend(c, xs + [IrqWait] + ys, [IrqWait]);
    ChannelAfterAppend(c, xs + [IrqWait], ys);
    ChannelAfterAppend(c, xs, [IrqWait]);
    NoRearmKeepsUnarmed(ChannelAfter(c, xs + [IrqWait]), ys);
  }
}
