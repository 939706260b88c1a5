/**
 * The interrupt descriptor table fill of idt_init.c. Each gate is a record
 * of the descriptor fields the kernel writes; the field layout is the 32-bit
 * gate descriptor of the Intel SDM Vol. 3A, section 6.11, where the 4-bit type
 * field is, from its low bit up, reserved3, reserved2, reserved1 and size,
 * and reserved0 is the descriptor's S bit. The table length (NUM_VEC) and the
 * kernel code selector (KERNEL_CS) come from x86_desc.h, which is not part of
 * this model, and are parameters.
 */
module Idt {
  import opened Types

  /** The vectors of idt_init.h. */
  const EXCEPTION_COUNT: nat := 20
  const PIT_VECTOR: nat := 0x20
  const KEYBOARD_VECTOR: nat := 0x21
  const RTC_VECTOR: nat := 0x28
  const MOUSE_VECTOR: nat := 0x2C
  const SYSCALL_VECTOR: nat := 0x80
  const RES4_MASK: bv8 := 0x1F

  /** Gate type values of the SDM: 32-bit interrupt gate and 32-bit trap gate. */
  const INTERRUPT_GATE_32: nat := 0xE
  const TRAP_GATE_32: nat := 0xF

  /** The status every exception handler passes to halt. */
  const EXCEPTION_STATUS: nat := 255

  /** What a gate's offset points at. */
  datatype Handler =
    | Unbound(code: nat)       // whatever the entry held before; the fill keeps it
    | Exception(vector: nat)   // _idt_handle_exception_*: clears the screen, prints, halt(255)
    | PitIrq
    | KeyboardIrq
    | RtcIrq
    | MouseIrq
    | SystemCall

  datatype Gate = Gate(
    handler: Handler,
    selector: nat,
    reserved4: bv8,
    reserved3: nat,
    reserved2: nat,
    reserved1: nat,
    size: nat,
    reserved0: nat,
    dpl: nat,
    present: nat)

  /** The descriptor's 4-bit type field. */
  function GateType(g: Gate): nat
  {
    g.reserved3 + 2 * g.reserved2 + 4 * g.reserved1 + 8 * g.size
  }

  /**
   * The static fields the fill loop writes into entry `index`; the handler is
   * kept. Every entry becomes a present 32-bit interrupt gate of privilege 0
   * in the kernel code segment, except the system-call vector, which becomes
   * a trap gate user code may invoke.
   */
  function Filled(g: Gate, index: nat, kernelCs: nat): (r: Gate)
    ensures r.handler == g.handler
    ensures r.present == 1 && r.selector == kernelCs && r.reserved0 == 0
    ensures r.reserved4 == g.reserved4 & RES4_MASK && r.reserved4 & !RES4_MASK == 0
    ensures GateType(r) == if index == SYSCALL_VECTOR then TRAP_GATE_32 else INTERRUPT_GATE_32
    ensures r.dpl == (if index == SYSCALL_VECTOR then 3 else 0)
  {
    var base := g.(reserved4 := g.reserved4 & RES4_MASK, reserved3 := 0, reserved2 := 1, reserved1 := 1,
                   reserved0 := 0, selector := kernelCs, size := 1);
    var withDpl := if index != SYSCALL_VECTOR then base.(dpl := 0) else base.(reserved3 := 1, dpl := 3);
    withDpl.(present := 1)
  }

  /** The handler SET_IDT_ENTRY binds to a vector, if any. */
  function Binding(index: nat): (h: Option<Handler>)
    ensures h.Some? <==> index < EXCEPTION_COUNT || index in {PIT_VECTOR, KEYBOARD_VECTOR, RTC_VECTOR, MOUSE_VECTOR, SYSCALL_VECTOR}
    ensures index < EXCEPTION_COUNT ==> h == Some(Exception(index))
    ensures h.Some? ==> !h.value.Unbound?
  {
    if index < EXCEPTION_COUNT then Some(Exception(index))
    else if index == PIT_VECTOR then Some(PitIrq)
    else if index == KEYBOARD_VECTOR then Some(KeyboardIrq)
    else if index == RTC_VECTOR then Some(RtcIrq)
    else if index == MOUSE_VECTOR then Some(MouseIrq)
    else if index == SYSCALL_VECTOR then Some(SystemCall)
    else None
  }

  /** The entry after the whole of _idt_set_all: filled, then bound. */
  function Installed(g: Gate, index: nat, kernelCs: nat): Gate
  {
    var f := Filled(g, index, kernelCs);
    match Binding(index)
    case Some(h) => f.(handler := h)
    case None => f
  }

  /**
   * After installation the vectors a device or user code raises reach their
   * handlers through the right kind of gate: the four device IRQs through
   * interrupt gates of privilege 0, the system call through a privilege-3
   * trap gate, and every exception vector through an interrupt gate to the
   * handler for that vector.
   */
  lemma InstalledGates(g: Gate, kernelCs: nat)
    ensures Installed(g, SYSCALL_VECTOR, kernelCs).handler == SystemCall
    ensures GateType(Installed(g, SYSCALL_VECTOR, kernelCs)) == TRAP_GATE_32
    ensures Installed(g, SYSCALL_VECTOR, kernelCs).dpl == 3
    ensures Installed(g, KEYBOARD_VECTOR, kernelCs).handler == KeyboardIrq
    ensures Installed(g, RTC_VECTOR, kernelCs).handler == RtcIrq
    ensures Installed(g, PIT_VECTOR, kernelCs).handler == PitIrq
    ensures Installed(g, MOUSE_VECTOR, kernelCs).handler == MouseIrq
    ensures forall v :: v in {PIT_VECTOR, KEYBOARD_VECTOR, RTC_VECTOR, MOUSE_VECTOR} ==>
      GateType(Installed(g, v, kernelCs)) == INTERRUPT_GATE_32 && Installed(g, v, kernelCs).dpl == 0
    ensures forall v :: 0 <= v < EXCEPTION_COUNT ==>
      Installed(g, v, kernelCs).handler == Exception(v) &&
      GateType(Installed(g, v, kernelCs)) == INTERRUPT_GATE_32 && Installed(g, v, kernelCs).dpl == 0
  {
  }

  /** Only the system-call gate can be entered from user privilege. */
  lemma OnlySyscallIsUserCallable(g: Gate, index: nat, kernelCs: nat)
    ensures Installed(g, index, kernelCs).dpl == 3 <==> index == SYSCALL_VECTOR
    ensures GateType(Installed(g, index, kernelCs)) == TRAP_GATE_32 <==> index == SYSCALL_VECTOR
  {
  }

  /** The halt status a handler reports when it runs: 255 for the exception handlers. */
  function HaltStatus(h: Handler): (s: Option<nat>)
    ensures s.Some? <==> h.Exception?
    ensures s.Some? ==> s.value == EXCEPTION_STATUS
  {
    if h.Exception? then Some(EXCEPTION_STATUS) else None
  }

  /** The fill loop of _idt_set_all. */
  method FillAll(idt: array<Gate>, kernelCs: nat)
    modifies idt
    ensures forall i :: 0 <= i < idt.Length ==> idt[i] == Filled(old(idt[i]), i, kernelCs)
  {
    var index := 0;
    while index < idt.Length
      invariant 0 <= index <= idt.Length
      invariant forall i :: 0 <= i < index ==> idt[i] == Filled(old(idt[i]), i, kernelCs)
      invariant forall i :: index <= i < idt.Length ==> idt[i] == old(idt[i])
    {
      var g := idt[index];
      g := g.(reserved4 := g.reserved4 & RES4_MASK);
      g := g.(reserved3 := 0, reserved2 := 1, reserved1 := 1, reserved0 := 0);
      g := g.(selector := kernelCs, size := 1);
      if index != SYSCALL_VECTOR {
        g := g.(dpl := 0);
      } else {
        g := g.(reserved3 := 1, dpl := 3);
      }
      g := g.(present := 1);
      idt[index] := g;
      index := index + 1;
    }
  }

  /** The twenty exception bindings of _idt_set_all, vector v to the handler for v. */
  method BindExceptions(idt: array<Gate>)
    requires idt.Length >= EXCEPTION_COUNT
    modifies idt
    ensures forall i :: 0 <= i < EXCEPTION_COUNT ==> idt[i] == old(idt[i]).(handler := Exception(i))
    ensures forall i :: EXCEPTION_COUNT <= i < idt.Length ==> idt[i] == old(idt[i])
  {
    for v := 0 to EXCEPTION_COUNT
      invariant forall i :: 0 <= i < v ==> idt[i] == old(idt[i]).(handler := Exception(i))
      invariant forall i :: v <= i < idt.Length ==> idt[i] == old(idt[i])
    {
      idt[v] := idt[v].(handler := Exception(v));
    }
  }

  /** The device and system-call bindings of _idt_set_all. */
  method BindDevices(idt: array<Gate>)
    requires idt.Length > SYSCALL_VECTOR
    modifies idt
    ensures forall i :: 0 <= i < idt.Length ==>
      idt[i] == match Binding(i) case Some(h) => (if i < EXCEPTION_COUNT then old(idt[i]) else old(idt[i]).(handler := h))
                                 case None => old(idt[i])
  {
    idt[PIT_VECTOR] := idt[PIT_VECTOR].(handler := PitIrq);
    idt[KEYBOARD_VECTOR] := idt[KEYBOARD_VECTOR].(handler := KeyboardIrq);
    idt[RTC_VECTOR] := idt[RTC_VECTOR].(handler := RtcIrq);
    idt[MOUSE_VECTOR] := idt[MOUSE_VECTOR].(handler := MouseIrq);
    idt[SYSCALL_VECTOR] := idt[SYSCALL_VECTOR].(handler := SystemCall);
  }

  /**
   * _idt_set_all: fills every entry of the table, then binds the handlers.
   * The table is NUM_VEC entries long and must reach the system-call vector.
   */
  method SetAll(idt: array<Gate>, kernelCs: nat)
    requires idt.Length > SYSCALL_VECTOR
    modifies idt
    ensures forall i :: 0 <= i < idt.Length ==> idt[i] == Installed(old(idt[i]), i, kernelCs)
  {
    FillAll(idt, kernelCs);
    BindExceptions(idt);
    BindDevices(idt);
  }
}
