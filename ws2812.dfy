/**
 * The `ws2812` PIO program of clock.py: each pixel word handed to the state
 * machine is shifted out of the 32-bit output shift register (OSR) most
 * significant bit first, and every bit becomes a high/low waveform of fixed
 * cycle counts. Cycle counts only; the 8 MHz clock is not modelled.
 */
module Ws2812 {

  /** Delay constants of the program. */
  const T1 := 2
  const T2 := 5
  const T3 := 3

  /** Width of the OSR, the shift `sm.put(words, 8)` applies, and the autopull threshold. */
  const OSR_BITS := 32
  const PUT_SHIFT := 8
  const PULL_THRESH := 24

  /** 2^32, the OSR's modulus, and 2^31, its most significant bit. */
  const OSR_MOD: nat := 0x1_0000_0000
  const OSR_MSB: nat := 0x8000_0000

  /** 2^24: a pixel word carries 24 bits. */
  const WORD_MOD: nat := 0x100_0000

  /** Cycles per encoded bit. */
  const BIT_CYCLES := T1 + T2 + T3

  function Pow2(n: nat): (p: nat)
    ensures p >= 1
  {
    if n == 0 then 1 else 2 * Pow2(n - 1)
  }

  datatype Level = Low | High

  /** The side-set pin held at `level` for `cycles` state-machine cycles. */
  datatype Phase = Phase(level: Level, cycles: nat)

  /**
   * The instructions executed for one bit, in program order:
   * `out(x, 1).side(0) [T3-1]`, `jmp(not_x).side(1) [T1-1]`, and then
   * `jmp(bitloop).side(1) [T2-1]` for a one or `nop().side(0) [T2-1]` for a zero.
   */
  function BitPhases(bit: bool): (ps: seq<Phase>)
    ensures |ps| == 3 && (ps[2].level == High <==> bit)
  {
    [Phase(Low, T3), Phase(High, T1), Phase(if bit then High else Low, T2)]
  }

  function Cycles(ps: seq<Phase>): nat
  {
    if ps == [] then 0 else ps[0].cycles + Cycles(ps[1..])
  }

  function HighCycles(ps: seq<Phase>): nat
  {
    if ps == [] then 0 else (if ps[0].level == High then ps[0].cycles else 0) + HighCycles(ps[1..])
  }

  /**
   * Every bit takes ten cycles. Measured from its rising edge, a one is high for
   * 7 cycles and then low for 3 (the next bit's `out`), a zero is high for 2
   * and then low for 8 (its `nop` and the next bit's `out`).
   */
  lemma BitTiming(bit: bool)
    ensures Cycles(BitPhases(bit)) == BIT_CYCLES == 10
    ensures HighCycles(BitPhases(bit)) == (if bit then 7 else 2)
    ensures BIT_CYCLES - HighCycles(BitPhases(bit)) == (if bit then 3 else 8)
  {
    var ps := BitPhases(bit);
    assert ps[1..][1..][1..] == [];
    assert Cycles(ps[2..]) == T2 && HighCycles(ps[2..]) == (if bit then T2 else 0) by {
      assert ps[2..] == [ps[2]] && [ps[2]][1..] == [];
    }
    assert ps[1..][1..] == ps[2..];
  }

  /**
   * `out(x, 1)` with `out_shiftdir=SHIFT_LEFT`, `n` times: x receives the most
   * significant bit of the OSR, which then shifts left by one.
   */
  function OutBits(osr: nat, n: nat): (bits: seq<bool>)
    requires osr < OSR_MOD
    ensures |bits| == n
    decreases n
  {
    if n == 0 then []
    else [osr / OSR_MSB == 1] + OutBits((osr * 2) % OSR_MOD, n - 1)
  }

  /** The value of a bit string read most significant bit first. */
  function FromBits(bits: seq<bool>): nat
  {
    if bits == [] then 0
    else (if bits[0] then Pow2(|bits| - 1) else 0) + FromBits(bits[1..])
  }

  /** The bits one pixel word sends: the word is put shifted left by 8 and 24 bits are pulled out. */
  function WordBits(w: nat): (bits: seq<bool>)
    requires w < WORD_MOD
    ensures |bits| == PULL_THRESH
  {
    Pow2Values();
    OutBits(w * Pow2(PUT_SHIFT), PULL_THRESH)
  }

  lemma Pow2Sum(a: nat, b: nat)
    ensures Pow2(a + b) == Pow2(a) * Pow2(b)
  {
    if a > 0 {
      Pow2Sum(a - 1, b);
    }
  }

  lemma Pow2Values()
    ensures Pow2(OSR_BITS) == OSR_MOD && Pow2(OSR_BITS - 1) == OSR_MSB
    ensures Pow2(PUT_SHIFT) == 0x100 && Pow2(PULL_THRESH) == 0x100_0000
  {
    assert Pow2(8) == 0x100 && Pow2(7) == 0x80;
    Pow2Sum(8, 8);
    Pow2Sum(16, 8);
    Pow2Sum(24, 7);
  }

  /** Division by `d` is determined by any quotient/remainder decomposition. */
  lemma DivUnique(x: nat, a: nat, r: nat, d: nat)
    requires d > 0 && r < d && x == a * d + r
    ensures x / d == a && x % d == r
  {
    var k := x / d - a;
    assert k * d == r - x % d;
    if k > 0 {
      assert false;
    } else if k < 0 {
      assert false;
    }
  }

  /** `(q * d + m) / d == q + m / d` for a positive divisor. */
  lemma DivAddMultiple(q: nat, m: nat, d: nat)
    requires d > 0
    ensures (q * d + m) / d == q + m / d
  {
    var r := m % d;
    assert m == (m / d) * d + r;
    assert q * d + m == (q + m / d) * d + r;
    DivUnique(q * d + m, q + m / d, r, d);
  }

  /** Doubling both sides of a division. */
  lemma DivDouble(m: nat, d: nat)
    requires d > 0
    ensures (2 * m) / (2 * d) == m / d
  {
    var q, r := m / d, m % d;
    assert 2 * m == q * (2 * d) + 2 * r;
    DivUnique(2 * m, q, 2 * r, 2 * d);
  }

  /** One `out(x, 1)`: the bit taken and the register left behind. */
  lemma ShiftStep(osr: nat)
    requires osr < OSR_MOD
    ensures osr / OSR_MSB <= 1
    ensures osr == (osr / OSR_MSB) * OSR_MSB + osr % OSR_MSB
    ensures (osr * 2) % OSR_MOD == 2 * (osr % OSR_MSB)
  {
  }

  /** The top n bits of the OSR are its top bit followed by the top n - 1 bits of the shifted register. */
  lemma TopBitsSplit(osr: nat, n: nat)
    requires osr < OSR_MOD && 1 <= n <= OSR_BITS
    ensures osr / Pow2(OSR_BITS - n)
      == (if osr / OSR_MSB == 1 then Pow2(n - 1) else 0) + ((osr * 2) % OSR_MOD) / Pow2(OSR_BITS - (n - 1))
  {
    Pow2Values();
    var m := osr % OSR_MSB;
    var d := Pow2(OSR_BITS - n);
    var q := if osr / OSR_MSB == 1 then Pow2(n - 1) else 0;
    ShiftStep(osr);
    assert Pow2(OSR_BITS - (n - 1)) == 2 * d;
    DivDouble(m, d);
    Pow2Sum(n - 1, OSR_BITS - n);
    assert osr == q * d + m by {
      if osr / OSR_MSB == 1 {
        assert q * d == OSR_MSB;
      } else {
        assert q * d == 0;
      }
    }
    DivAddMultiple(q, m, d);
  }

  /** Shifting `n` bits out of the OSR yields its top `n` bits. */
  lemma {:induction false} OutBitsValue(osr: nat, n: nat)
    requires osr < OSR_MOD && n <= OSR_BITS
    ensures FromBits(OutBits(osr, n)) == osr / Pow2(OSR_BITS - n)
    decreases n
  {
    if n == 0 {
      Pow2Values();
      DivUnique(osr, 0, osr, OSR_MOD);
    } else {
      var rest := (osr * 2) % OSR_MOD;
      var bits := OutBits(osr, n);
      assert bits[0] == (osr / OSR_MSB == 1) && bits[1..] == OutBits(rest, n - 1);
      assert FromBits(bits) == (if bits[0] then Pow2(n - 1) else 0) + FromBits(bits[1..]);
      OutBitsValue(rest, n - 1);
      TopBitsSplit(osr, n);
    }
  }

  /** The 24 bits sent for a pixel word are the word itself, most significant bit first. */
  lemma WordBitsRoundTrip(w: nat)
    requires w < WORD_MOD
    ensures FromBits(WordBits(w)) == w
  {
    Pow2Values();
    OutBitsValue(w * 0x100, PULL_THRESH);
    DivUnique(w * 0x100, w, 0, 0x100);
  }

  /** The waveform for a bit string: one three-phase group per bit, in order. */
  function EncodeBits(bits: seq<bool>): (ps: seq<Phase>)
    ensures |ps| == 3 * |bits|
  {
    if bits == [] then [] else BitPhases(bits[0]) + EncodeBits(bits[1..])
  }

  /**
   * A receiver's view, as a WS2812 samples its data line: a bit period that
   * stays high for more than half of its ten cycles is a one.
   */
  function DecodeBits(ps: seq<Phase>): (bits: seq<bool>)
    requires |ps| % 3 == 0
    ensures |bits| == |ps| / 3
  {
    if ps == [] then [] else [HighCycles(ps[..3]) > BIT_CYCLES / 2] + DecodeBits(ps[3..])
  }

  lemma {:induction false} DecodeEncodeBits(bits: seq<bool>)
    ensures DecodeBits(EncodeBits(bits)) == bits
  {
    if bits != [] {
      var ps := EncodeBits(bits);
      assert ps[..3] == BitPhases(bits[0]);
      BitTiming(bits[0]);
      assert ps[3..] == EncodeBits(bits[1..]);
      DecodeEncodeBits(bits[1..]);
    }
  }

  lemma {:induction false} CyclesAppend(a: seq<Phase>, b: seq<Phase>)
    ensures Cycles(a + b) == Cycles(a) + Cycles(b)
  {
    if a == [] {
      assert a + b == b;
    } else {
      assert (a + b)[1..] == a[1..] + b;
      CyclesAppend(a[1..], b);
    }
  }

  lemma {:induction false} EncodeBitsCycles(bits: seq<bool>)
    ensures Cycles(EncodeBits(bits)) == BIT_CYCLES * |bits|
  {
    if bits != [] {
      BitTiming(bits[0]);
      CyclesAppend(BitPhases(bits[0]), EncodeBits(bits[1..]));
      EncodeBitsCycles(bits[1..]);
    }
  }

  /** The waveform of one frame: every pixel word in buffer order. */
  function EncodeFrame(words: seq<nat>): (ps: seq<Phase>)
    requires forall k :: 0 <= k < |words| ==> words[k] < WORD_MOD
    ensures |ps| == 3 * PULL_THRESH * |words|
  {
    if words == [] then [] else EncodeBits(WordBits(words[0])) + EncodeFrame(words[1..])
  }

  /** Cut a waveform into 72-phase pixels and read each back as a word; a trailing partial pixel is not read. */
  function DecodeFrame(ps: seq<Phase>): (words: seq<nat>)
    ensures |words| == |ps| / (3 * PULL_THRESH)
    decreases |ps|
  {
    if |ps| < 3 * PULL_THRESH then []
    else [FromBits(DecodeBits(ps[..3 * PULL_THRESH]))] + DecodeFrame(ps[3 * PULL_THRESH..])
  }

  /** A frame carries exactly its words, in order, and nothing else. */
  lemma {:induction false} DecodeEncodeFrame(words: seq<nat>)
    requires forall k :: 0 <= k < |words| ==> words[k] < WORD_MOD
    ensures DecodeFrame(EncodeFrame(words)) == words
  {
    if words != [] {
      var ps := EncodeFrame(words);
      var head := EncodeBits(WordBits(words[0]));
      assert ps[..3 * PULL_THRESH] == head;
      assert ps[3 * PULL_THRESH..] == EncodeFrame(words[1..]);
      DecodeEncodeBits(WordBits(words[0]));
      WordBitsRoundTrip(words[0]);
      DecodeEncodeFrame(words[1..]);
    }
  }

  /** A frame of n pixels lasts 240 * n cycles. */
  lemma {:induction false} FrameCycles(words: seq<nat>)
    requires forall k :: 0 <= k < |words| ==> words[k] < WORD_MOD
    ensures Cycles(EncodeFrame(words)) == BIT_CYCLES * PULL_THRESH * |words|
  {
    if words != [] {
      var head := EncodeBits(WordBits(words[0]));
      var tail := words[1..];
      assert EncodeFrame(words) == head + EncodeFrame(tail);
      CyclesAppend(head, EncodeFrame(tail));
      EncodeBitsCycles(WordBits(words[0]));
      assert Cycles(head) == 240;
      FrameCycles(tail);
      assert Cycles(EncodeFrame(tail)) == 240 * (|words| - 1);
    }
  }

  /**
   * What the pin does for one `sm.put`: the frame, then the latch gap. Once the
   * FIFO is empty, autopull stalls `out` with its side-set 0 asserted, so the
   * line stays low for the `idle` cycles until the next put.
   */
  function Transmit(words: seq<nat>, idle: nat): (ps: seq<Phase>)
    requires forall k :: 0 <= k < |words| ==> words[k] < WORD_MOD
    ensures |ps| == 3 * PULL_THRESH * |words| + 1 && ps[|ps| - 1] == Phase(Low, idle)
    ensures DecodeFrame(ps[..|ps| - 1]) == words
  {
    var frame := EncodeFrame(words);
    DecodeEncodeFrame(words);
    assert (frame + [Phase(Low, idle)])[..|frame|] == frame;
    frame + [Phase(Low, idle)]
  }
}
