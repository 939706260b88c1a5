/**
 * The 8259A interrupt-controller pair of i8259.c. The driver caches the two
 * interrupt masks (a set bit masks its IRQ) and writes the updated cache to
 * the controller's data port; the port writes are recorded in a log. The IRQ
 * range, the master/slave split, the EOI byte, the cascade line and the port
 * numbers come from i8259.h, which is not part of this model, and are
 * construction parameters.
 */
module I8259 {
  /** The 8-bit mask bit for line `k`: 1 shifted left k times in 8 bits (0 from k = 8 on). */
  function MaskBit(k: nat): (b: bv8)
    ensures k < 8 ==> b != 0 && b & (b - 1) == 0
    ensures k >= 8 ==> b == 0
  {
    if k == 0 then 0x01 else if k == 1 then 0x02 else if k == 2 then 0x04 else if k == 3 then 0x08
    else if k == 4 then 0x10 else if k == 5 then 0x20 else if k == 6 then 0x40 else if k == 7 then 0x80
    else 0
  }

  /** Bits for different lines do not overlap. */
  lemma MaskBitsDisjoint(j: nat, k: nat)
    requires j != k
    ensures MaskBit(j) & MaskBit(k) == 0
  {
  }

  /** enable_irq's update: exactly line k's bit cleared. */
  function Unmasked(mask: bv8, k: nat): (m: bv8)
    ensures m & MaskBit(k) == 0
    ensures forall j :: 0 <= j < 8 && j != k ==> m & MaskBit(j) == mask & MaskBit(j)
  {
    mask & !MaskBit(k)
  }

  /** disable_irq's update: exactly line k's bit set. */
  function Masked(mask: bv8, k: nat): (m: bv8)
    ensures m & MaskBit(k) == MaskBit(k)
    ensures forall j :: 0 <= j < 8 && j != k ==> m & MaskBit(j) == mask & MaskBit(j)
  {
    mask | MaskBit(k)
  }

  /**
   * Disabling after enabling sets the bit again, so a line that started
   * masked is back where it was; and each update is idempotent.
   */
  lemma MaskRoundTrip(mask: bv8, k: nat)
    ensures Masked(Unmasked(mask, k), k) == Masked(mask, k)
    ensures mask & MaskBit(k) == MaskBit(k) ==> Masked(Unmasked(mask, k), k) == mask
    ensures Unmasked(Unmasked(mask, k), k) == Unmasked(mask, k)
    ensures Masked(Masked(mask, k), k) == Masked(mask, k)
  {
  }

  class Pic {
    const irqMin: nat
    const irqMid: nat
    const irqMax: nat
    const eoi: bv8
    const slaveIrq: bv8
    const masterPort: nat
    const slavePort: nat
    /** `master_mask` (IRQs below irqMid) and `slave_mask`. */
    var masterMask: bv8
    var slaveMask: bv8
    /** The (port, byte) writes issued so far. */
    var portLog: seq<(nat, bv8)>

    predicate InRange(irq: nat)
      reads this
    {
      irqMin <= irq <= irqMax
    }

    /** Both caches start fully masked. */
    constructor(irqMin: nat, irqMid: nat, irqMax: nat, eoi: bv8, slaveIrq: bv8, masterPort: nat, slavePort: nat)
      requires irqMax < 256
      ensures this.irqMin == irqMin && this.irqMid == irqMid && this.irqMax == irqMax
      ensures this.eoi == eoi && this.slaveIrq == slaveIrq
      ensures this.masterPort == masterPort && this.slavePort == slavePort
      ensures masterMask == 0xFF && slaveMask == 0xFF && portLog == []
    {
      this.irqMin, this.irqMid, this.irqMax := irqMin, irqMid, irqMax;
      this.eoi, this.slaveIrq := eoi, slaveIrq;
      this.masterPort, this.slavePort := masterPort, slavePort;
      masterMask, slaveMask := 0xFF, 0xFF;
      portLog := [];
    }

    /** The mask bit the shift loop builds: 1 shifted left `n` times in 8 bits. */
    method ShiftedBit(n: nat) returns (maskbit: bv8)
      ensures maskbit == MaskBit(n)
    {
      maskbit := 0x01;
      var counter := 0;
      while counter < n
        invariant 0 <= counter <= n
        invariant maskbit == MaskBit(counter)
      {
        maskbit := maskbit << 1;
        counter := counter + 1;
      }
    }

    /**
     * enable_irq: for an IRQ in range, clears its bit in the master cache
     * (below irqMid) or its bit, counted from irqMid, in the slave cache, and
     * writes that cache to the controller's data port; otherwise nothing.
     */
    method EnableIrq(irq: nat)
      modifies this
      ensures !InRange(irq) ==>
        masterMask == old(masterMask) && slaveMask == old(slaveMask) && portLog == old(portLog)
      ensures InRange(irq) && irq < irqMid ==>
        masterMask == Unmasked(old(masterMask), irq) && slaveMask == old(slaveMask) &&
        portLog == old(portLog) + [(masterPort + 1, masterMask)]
      ensures InRange(irq) && irq >= irqMid ==>
        slaveMask == Unmasked(old(slaveMask), irq - irqMid) && masterMask == old(masterMask) &&
        portLog == old(portLog) + [(slavePort + 1, slaveMask)]
    {
      if irq > irqMax || irq < irqMin {
        return;
      }
      if irq < irqMid {
        var maskbit := ShiftedBit(irq);
        masterMask := masterMask & !maskbit;
        portLog := portLog + [(masterPort + 1, masterMask)];
      } else {
        var maskbit := ShiftedBit(irq - irqMid);
        slaveMask := slaveMask & !maskbit;
        portLog := portLog + [(slavePort + 1, slaveMask)];
      }
    }

    /** disable_irq: as enable_irq, setting the bit instead. */
    method DisableIrq(irq: nat)
      modifies this
      ensures !InRange(irq) ==>
        masterMask == old(masterMask) && slaveMask == old(slaveMask) && portLog == old(portLog)
      ensures InRange(irq) && irq < irqMid ==>
        masterMask == Masked(old(masterMask), irq) && slaveMask == old(slaveMask) &&
        portLog == old(portLog) + [(masterPort + 1, masterMask)]
      ensures InRange(irq) && irq >= irqMid ==>
        slaveMask == Masked(old(slaveMask), irq - irqMid) && masterMask == old(masterMask) &&
        portLog == old(portLog) + [(slavePort + 1, slaveMask)]
    {
      if irq > irqMax || irq < irqMin {
        return;
      }
      if irq < irqMid {
        var maskbit := ShiftedBit(irq);
        masterMask := masterMask | maskbit;
        portLog := portLog + [(masterPort + 1, masterMask)];
      } else {
        var maskbit := ShiftedBit(irq - irqMid);
        slaveMask := slaveMask | maskbit;
        portLog := portLog + [(slavePort + 1, slaveMask)];
      }
    }

    /**
     * send_eoi: a master IRQ gets one EOI|irq to the master's command port; a
     * slave IRQ gets EOI|(irq − irqMid) to the slave, then EOI|cascade line to
     * the master. The masks do not change.
     */
    method SendEoi(irq: nat)
      requires irqMax < 256
      modifies this`portLog
      ensures !InRange(irq) ==> portLog == old(portLog)
      ensures InRange(irq) && irq < irqMid ==> portLog == old(portLog) + [(masterPort, eoi | irq as bv8)]
      ensures InRange(irq) && irq >= irqMid ==>
        portLog == old(portLog) + [(slavePort, eoi | (irq - irqMid) as bv8), (masterPort, eoi | slaveIrq)]
    {
      if irq > irqMax || irq < irqMin {
        return;
      }
      if irq < irqMid {
        portLog := portLog + [(masterPort, eoi | irq as bv8)];
      } else {
        portLog := portLog + [(slavePort, eoi | (irq - irqMid) as bv8)];
        portLog := portLog + [(masterPort, eoi | slaveIrq)];
      }
    }
  }

  /**
   * Enabling and then disabling a master-range IRQ leaves the master cache
   * as it was when the line started masked, and never touches the slave cache.
   */
  method EnableThenDisable(pic: Pic, irq: nat)
    requires pic.InRange(irq) && irq < pic.irqMid && pic.masterMask & MaskBit(irq) == MaskBit(irq)
    modifies pic
    ensures pic.masterMask == old(pic.masterMask) && pic.slaveMask == old(pic.slaveMask)
  {
    pic.EnableIrq(irq);
    pic.DisableIrq(irq);
    MaskRoundTrip(old(pic.masterMask), irq);
  }
}
