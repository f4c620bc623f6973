/** Fixed-width unsigned arithmetic, as the firmware's C code performs it on
    `uint8_t`, `uint16_t` and `uint32_t` values. */
module Words {

  const WRAP := 0x1_0000_0000
  const SEQ_WRAP := 0x1_0000

  type Byte = x: int | 0 <= x < 256
  type Half = x: int | 0 <= x < SEQ_WRAP
  type Word = x: int | 0 <= x < WRAP
  type Int8 = x: int | -128 <= x < 128
  type Int16 = x: int | -32768 <= x < 32768

  function NextByte(x: Byte): Byte {
    (x + 1) % 256
  }

  function NextHalf(x: Half): Half {
    (x + 1) % SEQ_WRAP
  }

  /** The C expression `now - since` on two `uint32_t` millisecond stamps. */
  function Elapsed(now: Word, since: Word): Word {
    (now - since) % WRAP
  }

  /** What the 32-bit boot clock reads at true time `t`. */
  function ClockAt(t: int): Word {
    t % WRAP
  }

  /** The wrapped difference is the true one reduced modulo 2^32, for a stamp on either side of `t`. */
  lemma ElapsedIsReduced(t: int, s: int)
    ensures Elapsed(ClockAt(t), ClockAt(s)) == (t - s) % WRAP
  {
    var a, b := t / WRAP, s / WRAP;
    assert t - s == (ClockAt(t) - ClockAt(s)) + WRAP * (a - b);
    ModShift(ClockAt(t) - ClockAt(s), a - b);
  }

  lemma {:induction false} ModShift(x: int, k: int)
    ensures (x + WRAP * k) % WRAP == x % WRAP
    decreases if k < 0 then -k else k
  {
    if k > 0 {
      ModShift(x, k - 1);
      assert x + WRAP * k == x + WRAP * (k - 1) + WRAP;
    } else if k < 0 {
      ModShift(x, k + 1);
      assert x + WRAP * k == x + WRAP * (k + 1) - WRAP;
    }
  }

  /** Below one full wrap the 32-bit difference is the true elapsed time. */
  lemma ElapsedIsExact(t: int, s: int)
    requires s <= t < s + WRAP
    ensures Elapsed(ClockAt(t), ClockAt(s)) == t - s
  {
    ElapsedIsReduced(t, s);
  }

  /** However long ago the stamp, the 32-bit difference never overstates the elapsed time. */
  lemma ElapsedNeverOverstates(t: int, s: int)
    requires s <= t
    ensures Elapsed(ClockAt(t), ClockAt(s)) <= t - s
  {
    ElapsedIsReduced(t, s);
  }
}
