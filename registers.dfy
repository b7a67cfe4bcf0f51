/**
 The register block of the AXI timer: word offsets, the control/status bit
 masks, the two control words the program writes as constants, and the
 read-modify-write that acknowledges an interrupt.

 Register words are unsigned 32-bit integers.  Bitwise OR and the test of
 one bit are defined on naturals below, with the facts about them that the
 control/status protocol needs.
 */
module Registers {

  const WORD_MODULUS: int := 0x1_0000_0000

  /** An unsigned 32-bit value: the contents of one register, a tick count. */
  type Word = x: int | 0 <= x < 0x1_0000_0000

  /** 2 to the power `n`. */
  function Pow2(n: nat): (r: nat)
    ensures r >= 1
  {
    if n == 0 then 1 else 2 * Pow2(n - 1)
  }

  /** Bit `k` of `x` (bit 0 is the least significant). */
  function Bit(x: nat, k: nat): bool
    decreases k
  {
    if k == 0 then x % 2 == 1 else Bit(x / 2, k - 1)
  }

  /** Bitwise OR of two naturals, one binary digit at a time. */
  function Or(a: nat, b: nat): (r: nat)
    ensures a <= r && b <= r
    decreases a + b
  {
    if a == 0 then b
    else if b == 0 then a
    else 2 * Or(a / 2, b / 2) + (if a % 2 == 1 || b % 2 == 1 then 1 else 0)
  }

  /** Zero has no bit set. */
  lemma {:induction false} BitOfZero(k: nat)
    ensures !Bit(0, k)
  {
    if k > 0 {
      BitOfZero(k - 1);
    }
  }

  /** Bit `k` of `a | b` is set exactly when it is set in `a` or in `b`. */
  lemma {:induction false} OrBit(a: nat, b: nat, k: nat)
    ensures Bit(Or(a, b), k) == (Bit(a, k) || Bit(b, k))
    decreases k
  {
    if a == 0 {
      BitOfZero(k);
    } else if b == 0 {
      BitOfZero(k);
    } else if k > 0 {
      var lo := if a % 2 == 1 || b % 2 == 1 then 1 else 0;
      assert Or(a, b) / 2 == Or(a / 2, b / 2) by {
        assert Or(a, b) == 2 * Or(a / 2, b / 2) + lo;
      }
      OrBit(a / 2, b / 2, k - 1);
    }
  }

  /** The only bit of `2^i` is bit `i`. */
  lemma {:induction false} BitOfPow2(i: nat, k: nat)
    ensures Bit(Pow2(i), k) == (i == k)
    decreases k
  {
    if k > 0 {
      if i == 0 {
        BitOfZero(k - 1);
      } else {
        assert Pow2(i) / 2 == Pow2(i - 1);
        BitOfPow2(i - 1, k - 1);
      }
    }
  }

  /** Two naturals with the same bits are equal. */
  lemma {:induction false} BitsDetermine(x: nat, y: nat)
    requires forall k: nat :: Bit(x, k) == Bit(y, k)
    ensures x == y
    decreases x + y
  {
    assert Bit(x, 0) == Bit(y, 0);
    if x / 2 != y / 2 {
      forall k: nat
        ensures Bit(x / 2, k) == Bit(y / 2, k)
      {
        assert Bit(x, k + 1) == Bit(y, k + 1);
      }
      BitsDetermine(x / 2, y / 2);
    }
  }

  /** OR of two values below `2^n` is below `2^n`. */
  lemma {:induction false} OrBelow(a: nat, b: nat, n: nat)
    requires a < Pow2(n) && b < Pow2(n)
    ensures Or(a, b) < Pow2(n)
  {
    if a != 0 && b != 0 {
      assert n > 0;
      OrBelow(a / 2, b / 2, n - 1);
    }
  }

  /** OR with a power of two above a value adds it. */
  lemma {:induction false} OrHigh(a: nat, n: nat)
    requires a < Pow2(n)
    ensures Or(a, Pow2(n)) == a + Pow2(n)
  {
    if a != 0 {
      assert n > 0;
      OrHigh(a / 2, n - 1);
    }
  }

  /** OR of two values with no bit in common is their sum. */
  lemma {:induction false} OrDisjoint(a: nat, b: nat)
    requires forall k: nat :: !(Bit(a, k) && Bit(b, k))
    ensures Or(a, b) == a + b
    decreases a + b
  {
    if a != 0 && b != 0 {
      assert !(Bit(a, 0) && Bit(b, 0));
      forall k: nat
        ensures !(Bit(a / 2, k) && Bit(b / 2, k))
      {
        assert Bit(a, k + 1) == Bit(a / 2, k);
        assert Bit(b, k + 1) == Bit(b / 2, k);
      }
      OrDisjoint(a / 2, b / 2);
    }
  }

  /** Width of a register word. */
  const WORD_BITS: nat := 32

  /** `2^(a + b) == 2^a * 2^b`. */
  lemma {:induction false} Pow2Add(a: nat, b: nat)
    ensures Pow2(a + b) == Pow2(a) * Pow2(b)
  {
    if a > 0 {
      Pow2Add(a - 1, b);
    }
  }

  lemma WordWidth()
    ensures Pow2(WORD_BITS) == WORD_MODULUS
  {
    assert Pow2(8) == 0x100;
    Pow2Add(8, 8);
    Pow2Add(16, 16);
  }

  /** The OR of two register words is a register word. */
  function WordOr(a: Word, b: Word): (r: Word)
    ensures forall k: nat :: Bit(r, k) == (Bit(a, k) || Bit(b, k))
  {
    WordWidth();
    OrBelow(a, b, WORD_BITS);
    forall k: nat
      ensures Bit(Or(a, b), k) == (Bit(a, k) || Bit(b, k))
    {
      OrBit(a, b, k);
    }
    Or(a, b)
  }

  // Word offsets inside the mapped block.
  const TCSR0: nat := 0  // control/status
  const TLR0: nat := 1   // reload value
  const TCR0: nat := 2   // live down-counter

  /** Number of words of the block the program uses. */
  const BLOCK_WORDS: nat := 3

  // Control/status bits: the masks and the bit each one selects.
  const TCSR_IRQ: Word := 0x100   // interrupt status, written as 1 to acknowledge
  const TCSR_ENT: Word := 0x080   // enable timer
  const TCSR_ENIT: Word := 0x040  // enable timer interrupt
  const TCSR_LOAD: Word := 0x020  // load the reload value (and halt)
  const TCSR_ARHT: Word := 0x010  // auto-reload
  const TCSR_UDT: Word := 0x002   // count direction: 0 up, 1 down

  const IRQ_BIT: nat := 8
  const ENT_BIT: nat := 7
  const ENIT_BIT: nat := 6
  const LOAD_BIT: nat := 5
  const ARHT_BIT: nat := 4
  const UDT_BIT: nat := 1

  /** Each mask is the single bit it is named for. */
  lemma MaskBits()
    ensures TCSR_IRQ == Pow2(IRQ_BIT) && TCSR_ENT == Pow2(ENT_BIT) && TCSR_ENIT == Pow2(ENIT_BIT)
    ensures TCSR_LOAD == Pow2(LOAD_BIT) && TCSR_ARHT == Pow2(ARHT_BIT) && TCSR_UDT == Pow2(UDT_BIT)
  {
  }

  /** The configuration bits ENIT | ARHT | UDT; LOAD and ENT are not part of it. */
  const TCSR_CONFIG: Word := WordOr(WordOr(TCSR_ENIT, TCSR_ARHT), TCSR_UDT)

  /** The control word `timer_config` writes, CONFIG | LOAD | IRQ: halt, load, clear a pending interrupt. */
  const CONFIG_WORD: Word := 0x172

  /** The control word `timer_start` writes, CONFIG | ENT: count, with LOAD released. */
  const START_WORD: Word := 0xD2

  /**
   The value the interrupt handler writes back to the control/status
   register after reading `csr`: `csr | TCSR_IRQ`, which sets the IRQ bit
   and keeps every other bit as read.
   */
  function Acknowledge(csr: Word): (r: Word)
    ensures Bit(r, IRQ_BIT)
    ensures forall k: nat :: k != IRQ_BIT ==> Bit(r, k) == Bit(csr, k)
  {
    forall k: nat
      ensures Bit(TCSR_IRQ, k) == (k == IRQ_BIT)
    {
      MaskBitsAt(k);
    }
    WordOr(csr, TCSR_IRQ)
  }

  /** Bits of the control-word masks, in terms of the bit numbers. */
  lemma MaskBitsAt(k: nat)
    ensures Bit(TCSR_IRQ, k) == (k == IRQ_BIT) && Bit(TCSR_ENT, k) == (k == ENT_BIT)
    ensures Bit(TCSR_ENIT, k) == (k == ENIT_BIT) && Bit(TCSR_LOAD, k) == (k == LOAD_BIT)
    ensures Bit(TCSR_ARHT, k) == (k == ARHT_BIT) && Bit(TCSR_UDT, k) == (k == UDT_BIT)
  {
    MaskBits();
    BitOfPow2(IRQ_BIT, k);
    BitOfPow2(ENT_BIT, k);
    BitOfPow2(ENIT_BIT, k);
    BitOfPow2(LOAD_BIT, k);
    BitOfPow2(ARHT_BIT, k);
    BitOfPow2(UDT_BIT, k);
  }

  /** The configuration word has exactly its three bits set. */
  lemma ConfigBitsAt(k: nat)
    ensures Bit(TCSR_CONFIG, k) == (k == ENIT_BIT || k == ARHT_BIT || k == UDT_BIT)
  {
    MaskBitsAt(k);
  }

  /** ENIT | ARHT | UDT is 0x52. */
  lemma ConfigMaskValue()
    ensures TCSR_CONFIG == 0x52
  {
    forall k: nat
      ensures !(Bit(TCSR_ENIT, k) && Bit(TCSR_ARHT, k))
    {
      MaskBitsAt(k);
    }
    OrDisjoint(TCSR_ENIT, TCSR_ARHT);
    forall k: nat
      ensures !(Bit(WordOr(TCSR_ENIT, TCSR_ARHT), k) && Bit(TCSR_UDT, k))
    {
      MaskBitsAt(k);
    }
    OrDisjoint(WordOr(TCSR_ENIT, TCSR_ARHT), TCSR_UDT);
  }

  /** CONFIG | LOAD | IRQ, the word `timer_config` computes, is 0x172. */
  lemma ConfigWordValue()
    ensures WordOr(WordOr(TCSR_CONFIG, TCSR_LOAD), TCSR_IRQ) == CONFIG_WORD
  {
    forall k: nat
      ensures !(Bit(TCSR_CONFIG, k) && Bit(TCSR_LOAD, k))
    {
      ConfigBitsAt(k);
      MaskBitsAt(k);
    }
    OrDisjoint(TCSR_CONFIG, TCSR_LOAD);
    ConfigMaskValue();
    MaskBits();
    assert Pow2(8) == 0x100;
    OrHigh(WordOr(TCSR_CONFIG, TCSR_LOAD), IRQ_BIT);
  }

  /** CONFIG | ENT, the word `timer_start` computes, is 0xD2. */
  lemma StartWordValue()
    ensures WordOr(TCSR_CONFIG, TCSR_ENT) == START_WORD
  {
    ConfigMaskValue();
    MaskBits();
    assert Pow2(7) == 0x80;
    OrHigh(TCSR_CONFIG, ENT_BIT);
  }

  /** The word `timer_config` writes sets the configuration bits, LOAD and IRQ, and no other. */
  lemma ConfigWordBits()
    ensures forall k: nat ::
              Bit(CONFIG_WORD, k) == (k == ENIT_BIT || k == ARHT_BIT || k == UDT_BIT || k == LOAD_BIT || k == IRQ_BIT)
  {
    ConfigWordValue();
    forall k: nat
      ensures Bit(CONFIG_WORD, k) ==
        (k == ENIT_BIT || k == ARHT_BIT || k == UDT_BIT || k == LOAD_BIT || k == IRQ_BIT)
    {
      ConfigBitsAt(k);
      MaskBitsAt(k);
    }
  }

  /** The word `timer_start` writes sets the configuration bits and ENT, and no other. */
  lemma StartWordBits()
    ensures forall k: nat ::
              Bit(START_WORD, k) == (k == ENIT_BIT || k == ARHT_BIT || k == UDT_BIT || k == ENT_BIT)
  {
    StartWordValue();
    forall k: nat
      ensures Bit(START_WORD, k) == (k == ENIT_BIT || k == ARHT_BIT || k == UDT_BIT || k == ENT_BIT)
    {
      ConfigBitsAt(k);
      MaskBitsAt(k);
    }
  }

  /** Acknowledging a word that is already acknowledged changes nothing. */
  lemma AcknowledgeIdempotent(csr: Word)
    ensures Acknowledge(Acknowledge(csr)) == Acknowledge(csr)
  {
    var once := Acknowledge(csr);
    var twice := Acknowledge(once);
    forall k: nat
      ensures Bit(twice, k) == Bit(once, k)
    {
    }
    BitsDetermine(twice, once);
  }

  /** A word whose IRQ bit is already set is acknowledged unchanged. */
  lemma AcknowledgePending(csr: Word)
    requires Bit(csr, IRQ_BIT)
    ensures Acknowledge(csr) == csr
  {
    var r := Acknowledge(csr);
    forall k: nat
      ensures Bit(r, k) == Bit(csr, k)
    {
    }
    BitsDetermine(r, csr);
  }

  /**
   A running timer keeps its configuration and keeps running across an
   acknowledge: ENT, ENIT, ARHT and UDT stay set and a clear LOAD stays clear.
   */
  lemma AcknowledgeKeepsRunning(csr: Word)
    requires Bit(csr, ENT_BIT) && Bit(csr, ENIT_BIT) && Bit(csr, ARHT_BIT) && Bit(csr, UDT_BIT)
    ensures Bit(Acknowledge(csr), ENT_BIT) && Bit(Acknowledge(csr), ENIT_BIT)
    ensures Bit(Acknowledge(csr), ARHT_BIT) && Bit(Acknowledge(csr), UDT_BIT)
    ensures !Bit(csr, LOAD_BIT) ==> !Bit(Acknowledge(csr), LOAD_BIT)
  {
  }

  /** The word the handler writes back after `timer_start` is 0x1D2. */
  lemma AcknowledgeStartWord()
    ensures Acknowledge(START_WORD) == 0x1D2
  {
    MaskBits();
    assert Pow2(8) == 0x100;
    OrHigh(START_WORD, IRQ_BIT);
  }
}
