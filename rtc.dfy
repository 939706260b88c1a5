/**
 * The real-time clock driver of rtc.c. Register A of the MC146818 holds the
 * periodic-interrupt rate select in its low four bits; a rate r gives
 * 32768 >> (r − 1) interrupts per second (MC146818A data sheet, register A,
 * rate selection table). Port traffic is modelled by the register's value.
 */
module Rtc {
  /** `ERRORMAG`: the rate the frequency switch yields for an unsupported frequency. */
  const ERROR_RATE := 0x4F2E
  /** `BASENUM`: the rate rtc_open selects (2 Hz). */
  const BASE_RATE := 15
  /** `DEFAULTB`: what a successful rtc_write returns. */
  const WRITE_OK := 4
  /** -1 returned through rtc_write's uint32_t result. */
  const WRITE_FAILED := 0xFFFF_FFFF

  function Pow2(k: nat): (p: nat)
    ensures p >= 1
  {
    if k == 0 then 1 else 2 * Pow2(k - 1)
  }

  /** `x` shifted right `n` times. */
  function ShiftRight(x: nat, n: nat): nat
  {
    if n == 0 then x else ShiftRight(x / 2, n - 1)
  }

  /** The frequency the MC146818 produces for rate select `rate` (1 .. 15): 32768 >> (rate − 1). */
  function RateFrequency(rate: nat): nat
    requires 1 <= rate <= 15
  {
    ShiftRight(32768, rate - 1)
  }

  /** rtc_write's switch: the rate for 2, 4, .., 1024 Hz, ERRORMAG for anything else. */
  function RateOf(freq: int): (rate: int)
    ensures rate == ERROR_RATE || 6 <= rate <= 15
  {
    if freq == 2 then 15
    else if freq == 4 then 14
    else if freq == 8 then 13
    else if freq == 16 then 12
    else if freq == 32 then 11
    else if freq == 64 then 10
    else if freq == 128 then 9
    else if freq == 256 then 8
    else if freq == 512 then 7
    else if freq == 1024 then 6
    else ERROR_RATE
  }

  /**
   * The switch accepts exactly the powers of two from 2 to 1024, maps 2^k to
   * rate 16 − k, and that rate makes the chip run at the requested frequency.
   */
  lemma RateOfMeaning(freq: int)
    ensures RateOf(freq) != ERROR_RATE <==> exists k :: 1 <= k <= 10 && freq == Pow2(k)
    ensures RateOf(freq) != ERROR_RATE ==>
      freq == Pow2(16 - RateOf(freq)) && RateFrequency(RateOf(freq)) == freq
  {
    assert Pow2(1) == 2 && Pow2(2) == 4 && Pow2(3) == 8 && Pow2(4) == 16 && Pow2(5) == 32;
    assert Pow2(6) == 64 && Pow2(7) == 128 && Pow2(8) == 256 && Pow2(9) == 512 && Pow2(10) == 1024;
    assert Pow2(11) == 2048 && Pow2(12) == 4096 && Pow2(13) == 8192 && Pow2(14) == 16384;
    if RateOf(freq) == ERROR_RATE {
      forall k | 1 <= k <= 10
        ensures freq != Pow2(k)
      {
      }
    } else {
      assert freq == Pow2(16 - RateOf(freq));
      assert Pow2(15) == 32768;
      ShiftRightPow2(RateOf(freq) - 1, 16 - RateOf(freq));
    }
  }

  /** Shifting 2^(a+b) right a times leaves 2^b. */
  lemma {:induction false} ShiftRightPow2(a: nat, b: nat)
    ensures ShiftRight(Pow2(a + b), a) == Pow2(b)
  {
    if a > 0 {
      assert Pow2(a + b) / 2 == Pow2(a - 1 + b);
      ShiftRightPow2(a - 1, b);
    }
  }

  /** Register A with a new rate: the upper nibble kept, the rate in the lower one. */
  function WithRate(prev: bv8, rate: bv8): (next: bv8)
    requires rate < 16
    ensures next & 0xF0 == prev & 0xF0
    ensures next & 0x0F == rate
  {
    (prev & 0xF0) | rate
  }

  /** Register A after rtc_write of frequency `freq`: the new rate, or no change. */
  function AfterWrite(prev: bv8, freq: int): (next: bv8)
    ensures RateOf(freq) == ERROR_RATE ==> next == prev
    ensures RateOf(freq) != ERROR_RATE ==> next == WithRate(prev, RateOf(freq) as bv8)
  {
    var rate := RateOf(freq);
    if rate == ERROR_RATE then prev else WithRate(prev, rate as bv8)
  }

  /**
   * change_freq as written: the loop's frequency goes to rtc_write's unused
   * `nbytes`, while rtc_write switches on the word behind the uninitialised
   * pointer it gets as `buf`, here `stray`. The count plays no part.
   */
  function ChangeFreqAsWritten(prev: bv8, count: nat, stray: int): (next: bv8)
    ensures next == AfterWrite(prev, stray)
  {
    AfterWrite(prev, stray)
  }

  /**
   * With count 3 (16 Hz) and a stray word of 0, register A keeps its old rate
   * instead of taking rate 12.
   */
  lemma ChangeFreqAsWrittenIgnoresCount()
    ensures ChangeFreqAsWritten(0x2F, 3, 0) == 0x2F
    ensures ChangeFreqIntended(0x2F, 3) == 0x2C
  {
    assert Pow2(4) == 16;
  }

  /** change_freq as intended: rtc_write receives the frequency 2^(count+1). */
  function ChangeFreqIntended(prev: bv8, count: nat): (next: bv8)
    ensures next == AfterWrite(prev, Pow2(count + 1))
  {
    AfterWrite(prev, Pow2(count + 1))
  }

  /** Intended change_freq sets rate 15 − count for counts 0 .. 9, so 2^(count+1) Hz, and leaves register A alone beyond. */
  lemma {:induction false} ChangeFreqRate(prev: bv8, count: nat)
    ensures count <= 9 ==> RateOf(Pow2(count + 1)) == 15 - count
    ensures count > 9 ==> ChangeFreqIntended(prev, count) == prev
  {
    if count <= 9 {
      RateOfMeaning(Pow2(count + 1));
      assert Pow2(1) == 2 && Pow2(2) == 4 && Pow2(3) == 8 && Pow2(4) == 16 && Pow2(5) == 32;
      assert Pow2(6) == 64 && Pow2(7) == 128 && Pow2(8) == 256 && Pow2(9) == 512 && Pow2(10) == 1024;
    } else {
      PowAbove(count + 1);
    }
  }

  lemma {:induction false} PowAbove(k: nat)
    requires k >= 11
    ensures Pow2(k) >= 2048
  {
    if k > 11 {
      PowAbove(k - 1);
    }
  }

  /** The increment of change_freq's `int8_t` loop counter as written: 127 wraps to -128. */
  function Int8Succ(i: int): (j: int)
    requires -128 <= i < 128
    ensures -128 <= j < 128
    ensures i < 127 ==> j == i + 1
    ensures i == 127 ==> j == -128
  {
    if i == 127 then -128 else i + 1
  }

  /** The `int8_t` counter after `n` passes of change_freq's loop, as written. */
  function CounterAsWritten(n: nat): (i: int)
    ensures -128 <= i < 128
  {
    if n == 0 then 0 else Int8Succ(CounterAsWritten(n - 1))
  }

  /** The counter counts modulo 256 within the `int8_t` range: 0, 1, .., 127, -128, .., -1, 0, .. */
  lemma {:induction false} CounterAsWrittenWraps(n: nat)
    ensures CounterAsWritten(n) == (n + 128) % 256 - 128
  {
    if n > 0 {
      CounterAsWrittenWraps(n - 1);
    }
  }

  /**
   * For a count of 128 or more (a `uint8_t` count goes up to 255) the counter
   * is below the count after every pass and comes back to 0 every 256
   * passes, so the test `i < count` never fails and change_freq never returns.
   */
  lemma ChangeFreqAsWrittenNeverEnds(count: nat, n: nat)
    requires 128 <= count < 256
    ensures CounterAsWritten(n) < count && CounterAsWritten(n + 256) == CounterAsWritten(n)
  {
    CounterAsWrittenWraps(n);
    CounterAsWrittenWraps(n + 256);
  }

  /** The RTC's register A (the rate select and the divider bits above it). */
  class RtcDevice {
    var regA: bv8

    constructor(regA: bv8)
      ensures this.regA == regA
    {
      this.regA := regA;
    }

    /** rtc_open: selects 2 Hz, keeping the upper nibble. */
    method Open() returns (r: int)
      modifies this
      ensures regA == WithRate(old(regA), BASE_RATE as bv8) && r == 0
    {
      var prev := regA;
      regA := (prev & 0xF0) | (BASE_RATE as bv8);
      return 0;
    }

    /**
     * rtc_write: for a supported frequency writes its rate into register A
     * and returns 4; otherwise returns -1 (as an unsigned word) with no write.
     */
    method Write(freq: int) returns (r: nat)
      modifies this
      ensures regA == AfterWrite(old(regA), freq)
      ensures RateOf(freq) == ERROR_RATE <==> r == WRITE_FAILED
      ensures r == WRITE_FAILED || r == WRITE_OK
    {
      var rate := RateOf(freq);
      if rate == ERROR_RATE {
        return WRITE_FAILED;
      } else {
        var prev := regA;
        regA := (prev & 0xF0) | (rate as bv8);
        return WRITE_OK;
      }
    }

    /**
     * change_freq as intended: doubles 2 `count` times and writes the result
     * as the frequency, with a loop counter as wide as the `uint8_t` count, so
     * that every count ends the loop.
     */
    method ChangeFreq(count: nat)
      requires count < 256
      modifies this
      ensures regA == ChangeFreqIntended(old(regA), count)
    {
      var temp := 2;
      var i := 0;
      while i < count
        invariant 0 <= i <= count
        invariant temp == Pow2(i + 1)
      {
        temp := temp * 2;
        i := i + 1;
      }
      var _ := Write(temp);
    }
  }

  /** rtc_close: always 0. */
  function Close(): (r: int)
    ensures r == 0
  {
    0
  }

  /** rtc_read once the interrupt it waits for has arrived: always 0. */
  function Read(): (r: int)
    ensures r == 0
  {
    0
  }
}
