/** The architectural state that both cores share in shape, and the privileged actions on it:
    interrupt selection, trap entry, trap return and the CSR file. */
module Hart {
  import opened Wrappers
  import opened Address
  import opened Paging
  import Bits

  datatype Xlen = Rv32 | Rv64

  datatype Fs = Off | Initial | Clean | Dirty

  /** The implemented fields of mstatus. RV32 has no fs: it stays Off. */
  datatype Status = Status(sie: bool, mie: bool, spie: bool, mpie: bool, spp: bool, mpp: Privilege, fs: Fs,
                           mprv: bool, sum: bool, mxr: bool, tvm: bool, tw: bool, tsr: bool)

  /** CSRs whose bits act one by one (delegation, enable, pending) are sets of bit positions. */
  datatype Hart = Hart(
    x: seq<nat>, f: seq<nat>, fcsr: nat, pc: nat, id: nat, privilege: Privilege, status: Status,
    medeleg: set<nat>, mideleg: set<nat>, mie: set<nat>, mipSoftware: set<nat>, mipLines: set<nat>,
    mcounteren: set<nat>, mtvec: nat, mscratch: nat, mepc: nat, mcause: nat, mtval: nat,
    scounteren: set<nat>, stvec: nat, sscratch: nat, sepc: nat, scause: nat, stval: nat, satp: Satp,
    cycle: nat, retired: nat, waiting: bool)

  function Modulus(xlen: Xlen): (r: nat)
    ensures r > 0
  {
    match xlen case Rv32 => 0x1_0000_0000 case Rv64 => 0x1_0000_0000_0000_0000
  }

  function Width(xlen: Xlen): nat { match xlen case Rv32 => 32 case Rv64 => 64 }

  function Wrap(xlen: Xlen, v: int): (r: nat) { v % Modulus(xlen) }

  function Even(v: nat): nat { v - v % 2 }

  const ExceptionDelegation: set<nat> := {0, 1, 2, 3, 4, 5, 6, 7, 8, 9, 12, 13, 15}
  const SupervisorInterrupts: set<nat> := {1, 5, 9}
  const Interrupts: set<nat> := {1, 3, 5, 7, 9, 11}

  /* ---- mstatus as a word ---- */

  /** RV32 implements no FS; a legal MPP is all the field can hold. */
  function Sanitize(xlen: Xlen, s: Status): Status {
    if xlen == Rv32 then s.(fs := Off) else s
  }

  /** MPP is WARL: the reserved code 2 reads as U. */
  function MppOf(low: bool, high: bool): Privilege {
    if low && high then Machine else if low then Supervisor else User
  }

  function FsOf(low: bool, high: bool): Fs {
    if low && high then Dirty else if high then Clean else if low then Initial else Off
  }

  /** A bit of mstatus: UXL and SXL read as 64-bit, SD summarises FS. */
  function StatusBit(xlen: Xlen, s: Status, i: nat): bool {
    if i < 11 then TrapBit(s, i)
    else if i < 17 then TwoBitField(s, i)
    else if i < 23 then AccessBit(s, i)
    else xlen == Rv64 && (i == 33 || i == 35 || (i == 63 && s.fs == Dirty))
  }

  predicate TrapBit(s: Status, i: nat) {
    (i == 1 && s.sie) || (i == 3 && s.mie) || (i == 5 && s.spie) || (i == 7 && s.mpie) || (i == 8 && s.spp)
  }

  predicate TwoBitField(s: Status, i: nat) {
    (i == 11 && s.mpp != User) || (i == 12 && s.mpp == Machine) ||
    (i == 13 && (s.fs == Initial || s.fs == Dirty)) || (i == 14 && (s.fs == Clean || s.fs == Dirty))
  }

  predicate AccessBit(s: Status, i: nat) {
    (i == 17 && s.mprv) || (i == 18 && s.sum) || (i == 19 && s.mxr) || (i == 20 && s.tvm) || (i == 21 && s.tw) ||
      (i == 22 && s.tsr)
  }

  function StatusBits(xlen: Xlen, s: Status): Bits.Word {
    seq(Width(xlen), i requires 0 <= i => StatusBit(xlen, s, i))
  }

  function StatusWord(xlen: Xlen, s: Status): nat { Bits.Value(StatusBits(xlen, s)) }

  /** sstatus shows its fields and UXL, but not SXL. */
  function SstatusWord(xlen: Xlen, s: Status): nat {
    var view := SupervisorView(xlen, s);
    Bits.Value(seq(Width(xlen), i requires 0 <= i => i != 35 && StatusBit(xlen, view, i)))
  }

  function StatusOf(xlen: Xlen, value: nat): Status {
    var b := Bits.Of(value, Width(xlen));
    Status(b[1], b[3], b[5], b[7], b[8], MppOf(b[11], b[12]), FsOf(b[13], b[14]),
           b[17], b[18], b[19], b[20], b[21], b[22])
  }

  /** sstatus shows and writes these fields of mstatus; RV32 has no FS to show. */
  function SupervisorView(xlen: Xlen, s: Status): Status {
    s.(mie := false, mpie := false, mpp := User, mprv := false, tvm := false, tw := false, tsr := false)
  }

  function WithSupervisorView(s: Status, v: Status): Status {
    s.(sie := v.sie, spie := v.spie, spp := v.spp, fs := v.fs, sum := v.sum, mxr := v.mxr)
  }

  /* ---- interrupts ---- */

  function Sampled(h: Hart, lines: set<nat>): Hart { h.(mipLines := lines * Interrupts) }

  function Pending(h: Hart): set<nat> { (h.mipLines + h.mipSoftware) * Interrupts }

  predicate WakeRequested(h: Hart) { Pending(h) * h.mie != {} }

  predicate MachineEnabled(h: Hart) { h.privilege != Machine || h.status.mie }

  predicate SupervisorEnabled(h: Hart) { h.privilege == User || (h.privilege == Supervisor && h.status.sie) }

  datatype Selection = Selection(cause: nat, supervisor: bool)

  /** One fixed order across both targets: MEI, MSI, MTI, SEI, SSI, STI. */
  const PriorityOrder: seq<nat> := [11, 3, 7, 9, 1, 5]

  /** The target takes the interrupt now. */
  predicate Takes(h: Hart, cause: nat) {
    cause in Pending(h) && cause in h.mie && (if cause in h.mideleg then SupervisorEnabled(h) else MachineEnabled(h))
  }

  function SelectFrom(h: Hart, order: seq<nat>): Option<Selection> {
    if order == [] then None
    else if Takes(h, order[0]) then Some(Selection(order[0], order[0] in h.mideleg))
    else SelectFrom(h, order[1..])
  }

  /* ---- trap entry and return ---- */

  function Vector(xlen: Xlen, tvec: nat, interrupt: bool, cause: nat): nat {
    var base := tvec - tvec % 4;
    if interrupt && tvec % 4 == 1 then Wrap(xlen, base + 4 * cause) else base
  }

  function CauseWord(xlen: Xlen, interrupt: bool, cause: nat): nat {
    if interrupt then Modulus(xlen) / 2 + cause else cause
  }

  function MachineTrap(xlen: Xlen, h: Hart, cause: nat, pc: nat, value: nat, interrupt: bool): Hart {
    var s := Sanitize(xlen, h.status);
    h.(status := Sanitize(xlen, s.(mie := false, mpie := s.mie, mpp := h.privilege)),
       mepc := Even(pc), mcause := CauseWord(xlen, interrupt, cause), mtval := value,
       pc := Vector(xlen, h.mtvec, interrupt, cause), privilege := Machine, waiting := false, x := Zeroed(h.x))
  }

  function SupervisorTrap(xlen: Xlen, h: Hart, cause: nat, pc: nat, value: nat, interrupt: bool): Hart {
    var s := Sanitize(xlen, h.status);
    h.(status := Sanitize(xlen, s.(sie := false, spie := s.sie, spp := h.privilege == Supervisor)),
       sepc := Even(pc), scause := CauseWord(xlen, interrupt, cause), stval := value,
       pc := Vector(xlen, h.stvec, interrupt, cause), privilege := Supervisor, waiting := false, x := Zeroed(h.x))
  }

  function Zeroed(x: seq<nat>): (r: seq<nat>)
    ensures |r| == |x|
  {
    if |x| == 0 then x else x[0 := 0]
  }

  predicate Delegated(xlen: Xlen, h: Hart, cause: nat) {
    h.privilege != Machine && cause < Width(xlen) && cause in h.medeleg
  }

  function TakeTrap(xlen: Xlen, h: Hart, cause: nat, pc: nat, value: nat): Hart {
    if Delegated(xlen, h, cause) then SupervisorTrap(xlen, h, cause, pc, value, false)
    else MachineTrap(xlen, h, cause, pc, value, false)
  }

  function TakeInterrupt(xlen: Xlen, h: Hart, i: Selection): Hart {
    if i.supervisor then SupervisorTrap(xlen, h, i.cause, h.pc, 0, true)
    else MachineTrap(xlen, h, i.cause, h.pc, 0, true)
  }

  /** mstatus after MRET. */
  function MretStatus(s: Status): Status {
    s.(mie := s.mpie, mpie := true, mpp := User, mprv := s.mprv && s.mpp == Machine)
  }

  /** mstatus after SRET. */
  function SretStatus(s: Status): Status {
    s.(sie := s.spie, spie := true, spp := false, mprv := false)
  }

  predicate MretAllowed(h: Hart) { h.privilege == Machine }

  predicate SretAllowed(h: Hart) { h.privilege == Machine || (h.privilege == Supervisor && !h.status.tsr) }

  predicate WfiAllowed(h: Hart) { h.privilege == Machine || (h.privilege == Supervisor && !h.status.tw) }

  predicate SfenceAllowed(h: Hart) { h.privilege == Machine || (h.privilege == Supervisor && !h.status.tvm) }

  /** execute_mret of RV64: all at once. */
  function Mret(xlen: Xlen, h: Hart): Hart {
    var s := Sanitize(xlen, h.status);
    h.(status := Sanitize(xlen, MretStatus(s)), privilege := s.mpp, pc := h.mepc)
  }

  function Sret(xlen: Xlen, h: Hart): Hart {
    var s := Sanitize(xlen, h.status);
    h.(status := Sanitize(xlen, SretStatus(s)), privilege := if s.spp then Supervisor else User, pc := h.sepc)
  }

  /* ---- translation contexts ---- */

  function ModeOf(xlen: Xlen): Mode { match xlen case Rv32 => Sv32 case Rv64 => Sv39 }

  /** MPRV lends loads and stores the privilege in MPP; fetches never use it. */
  function EffectivePrivilege(xlen: Xlen, h: Hart, access: Access): Privilege {
    if access == Fetch || !h.status.mprv then h.privilege else h.status.mpp
  }

  function ContextOf(xlen: Xlen, h: Hart, access: Access): Context {
    Context(ModeOf(xlen), h.satp, EffectivePrivilege(xlen, h, access), h.status.sum, h.status.mxr)
  }

  /* ---- the CSR file ---- */

  datatype CsrStatus = CsrReady | NotFound | Violation | ReadOnly

  const SATP: nat := 0x180
  const SSTATUS: nat := 0x100
  const MSTATUS: nat := 0x300

  predicate PrivilegeCovers(a: nat, p: Privilege) { PrivilegeCode(p) >= a / 0x100 % 4 }

  predicate IsCounter(xlen: Xlen, a: nat) {
    a in {0xC00, 0xC01, 0xC02} || (xlen == Rv32 && a in {0xC80, 0xC81, 0xC82})
  }

  predicate IsIdentity(a: nat) { a in {0xF11, 0xF12, 0xF13, 0xF14} }

  predicate IsFloating(xlen: Xlen, a: nat) { xlen == Rv64 && a in {0x001, 0x002, 0x003} }

  predicate IsWritable(xlen: Xlen, a: nat) {
    a in {0x300, 0x301, 0x302, 0x303, 0x304, 0x305, 0x306, 0x340, 0x341, 0x342, 0x343, 0x344, 0xB00, 0xB02} ||
    a in {0x100, 0x104, 0x105, 0x106, 0x140, 0x141, 0x142, 0x143, 0x144, 0x180} ||
    (xlen == Rv32 && a in {0x310, 0x312, 0xB80, 0xB82})
  }

  predicate SatpTrapped(h: Hart, a: nat, p: Privilege) { a == SATP && p == Supervisor && h.status.tvm }

  predicate FloatingOff(xlen: Xlen, h: Hart, a: nat) { IsFloating(xlen, a) && h.status.fs == Off }

  predicate CounterAllowed(h: Hart, a: nat, p: Privilege) {
    p == Machine || (a % 0x80 in h.mcounteren && (p == User ==> a % 0x80 in h.scounteren))
  }

  function ValidateWrite(xlen: Xlen, h: Hart, a: nat, p: Privilege): CsrStatus {
    if !PrivilegeCovers(a, p) || SatpTrapped(h, a, p) || FloatingOff(xlen, h, a) then Violation
    else if IsCounter(xlen, a) || IsIdentity(a) then ReadOnly
    else if IsFloating(xlen, a) || IsWritable(xlen, a) then CsrReady
    else NotFound
  }

  function ValidateRead(xlen: Xlen, h: Hart, a: nat, p: Privilege): CsrStatus {
    if !PrivilegeCovers(a, p) || SatpTrapped(h, a, p) || FloatingOff(xlen, h, a) ||
       (IsCounter(xlen, a) && !CounterAllowed(h, a, p)) then Violation
    else if IsFloating(xlen, a) || IsWritable(xlen, a) || IsCounter(xlen, a) || IsIdentity(a) then CsrReady
    else NotFound
  }

  function TvecOf(value: nat): nat { if value % 4 <= 1 then value else value - value % 4 }

  function SatpOf(xlen: Xlen, value: nat): Satp {
    match xlen
    case Rv32 =>
      if value / 0x8000_0000 % 2 == 0 then Satp(false, 0, FrameOf(Sv32, 0))
      else Satp(true, value / 0x40_0000 % 0x200, FrameOf(Sv32, value % 0x40_0000))
    case Rv64 =>
      if value / 0x1000_0000_0000_0000 % 16 != 8 then Satp(false, 0, FrameOf(Sv39, 0))
      else Satp(true, value / 0x1000_0000_0000 % 0x1_0000, FrameOf(Sv39, value % 0x1000_0000_0000))
  }

  function Low(v: nat): nat { v % 0x1_0000_0000 }

  function High(v: nat): nat { v / 0x1_0000_0000 % 0x1_0000_0000 }

  /** The counter as a CSR of this width shows it. */
  function CounterValue(xlen: Xlen, v: nat): nat { match xlen case Rv32 => Low(v) case Rv64 => v }

  function Masked(was: set<nat>, value: set<nat>, mask: set<nat>): set<nat> { (was - mask) + (value * mask) }

  function ReadCsr(xlen: Xlen, h: Hart, time: nat, a: nat): nat {
    var w := Width(xlen);
    match a
    case 0x001 => h.fcsr % 0x20
    case 0x002 => h.fcsr / 0x20 % 8
    case 0x003 => h.fcsr
    case 0x100 => SstatusWord(xlen, Sanitize(xlen, h.status))
    case 0x104 => Bits.OfSet(h.mie * h.mideleg * SupervisorInterrupts, w)
    case 0x105 => h.stvec
    case 0x106 => Bits.OfSet(h.scounteren, w)
    case 0x140 => h.sscratch
    case 0x141 => h.sepc
    case 0x142 => h.scause
    case 0x143 => h.stval
    case 0x144 => Bits.OfSet(Pending(h) * h.mideleg * SupervisorInterrupts, w)
    case 0x180 => SatpWord(ModeOf(xlen), h.satp)
    case 0x300 => StatusWord(xlen, Sanitize(xlen, h.status))
    case 0x301 => if xlen == Rv32 then 0x4014_1105 else 0x8000_0000_0014_112D
    case 0x302 => Bits.OfSet(h.medeleg, w)
    case 0x303 => Bits.OfSet(h.mideleg, w)
    case 0x304 => Bits.OfSet(h.mie * Interrupts, w)
    case 0x305 => h.mtvec
    case 0x306 => Bits.OfSet(h.mcounteren, w)
    case 0x340 => h.mscratch
    case 0x341 => h.mepc
    case 0x342 => h.mcause
    case 0x343 => h.mtval
    case 0x344 => Bits.OfSet(Pending(h), w)
    case 0xB00 => CounterValue(xlen, h.cycle)
    case 0xC00 => CounterValue(xlen, h.cycle)
    case 0xC01 => CounterValue(xlen, time)
    case 0xB02 => CounterValue(xlen, h.retired)
    case 0xC02 => CounterValue(xlen, h.retired)
    case 0xB80 => High(h.cycle)
    case 0xC80 => High(h.cycle)
    case 0xC81 => High(time)
    case 0xB82 => High(h.retired)
    case 0xC82 => High(h.retired)
    case 0xF14 => h.id
    case _ => 0      // mstatush, medelegh and the other identity registers
  }

  /** What CSRRS and CSRRC modify: of the pending bits, only the software part. */
  function ReadForWrite(xlen: Xlen, h: Hart, a: nat, value: nat): nat {
    var w := Width(xlen);
    var bits := Bits.SetOf(value, w);
    if a == 0x344 then Bits.OfSet(Masked(bits, h.mipSoftware, SupervisorInterrupts), w)
    else if a == 0x144 then Bits.OfSet(Masked(bits, h.mipSoftware, {1}), w)
    else value
  }

  function FpDirty(xlen: Xlen, h: Hart): Hart { h.(status := Sanitize(xlen, h.status.(fs := Dirty))) }

  function WriteFloating(h: Hart, a: nat, value: nat): Hart {
    match a
    case 0x001 => FpDirty(Rv64, h.(fcsr := h.fcsr / 0x20 * 0x20 + value % 0x20))
    case 0x002 => FpDirty(Rv64, h.(fcsr := h.fcsr % 0x20 + value % 8 * 0x20))
    case _ => FpDirty(Rv64, h.(fcsr := value % 0x100))
  }

  function WriteSupervisorSetup(xlen: Xlen, h: Hart, a: nat, value: nat): Hart {
    var bits := Bits.SetOf(value, Width(xlen));
    match a
    case 0x100 => h.(status := Sanitize(xlen, WithSupervisorView(h.status, StatusOf(xlen, value))))
    case 0x104 => h.(mie := Masked(h.mie, bits, h.mideleg * SupervisorInterrupts))
    case 0x105 => h.(stvec := TvecOf(value))
    case 0x106 => h.(scounteren := bits * {0, 1, 2})
    case _ => h
  }

  function WriteSupervisorHandling(xlen: Xlen, h: Hart, a: nat, value: nat): Hart {
    match a
    case 0x140 => h.(sscratch := value)
    case 0x141 => h.(sepc := Even(value))
    case 0x142 => h.(scause := value)
    case 0x143 => h.(stval := value)
    case 0x144 => h.(mipSoftware := Masked(h.mipSoftware, Bits.SetOf(value, Width(xlen)), h.mideleg * {1}))
    case 0x180 => if SatpModeKnown(xlen, value) then h.(satp := SatpOf(xlen, value)) else h
    case _ => h
  }

  /** RV64 ignores a satp write that selects a mode it lacks. */
  predicate SatpModeKnown(xlen: Xlen, value: nat) {
    xlen == Rv32 || value / 0x1000_0000_0000_0000 % 16 == 0 || value / 0x1000_0000_0000_0000 % 16 == 8
  }

  function WriteMachineSetup(xlen: Xlen, h: Hart, a: nat, value: nat): Hart {
    var bits := Bits.SetOf(value, Width(xlen));
    match a
    case 0x300 => h.(status := Sanitize(xlen, StatusOf(xlen, value)))
    case 0x302 => h.(medeleg := bits * ExceptionDelegation)
    case 0x303 => h.(mideleg := bits * SupervisorInterrupts)
    case 0x304 => h.(mie := bits * Interrupts)
    case 0x305 => h.(mtvec := TvecOf(value))
    case 0x306 => h.(mcounteren := bits * {0, 1, 2})
    case _ => h      // misa, mstatush, medelegh accept and ignore writes
  }

  function WriteMachineHandling(xlen: Xlen, h: Hart, a: nat, value: nat): Hart {
    match a
    case 0x340 => h.(mscratch := value)
    case 0x341 => h.(mepc := Even(value))
    case 0x342 => h.(mcause := value)
    case 0x343 => h.(mtval := value)
    case 0x344 => h.(mipSoftware := Bits.SetOf(value, Width(xlen)) * SupervisorInterrupts)
    case _ => h
  }

  function WriteCounter(xlen: Xlen, h: Hart, a: nat, value: nat): Hart {
    match a
    case 0xB00 => h.(cycle := if xlen == Rv32 then h.cycle - Low(h.cycle) + value else value)
    case 0xB02 => h.(retired := if xlen == Rv32 then h.retired - Low(h.retired) + value else value)
    case 0xB80 => h.(cycle := Low(h.cycle) + value * 0x1_0000_0000)
    case 0xB82 => h.(retired := Low(h.retired) + value * 0x1_0000_0000)
    case _ => h
  }

  /** write_validated: what an address that no core knows would change is nothing. */
  function WriteCsr(xlen: Xlen, h: Hart, a: nat, value: nat): Hart {
    if IsFloating(xlen, a) then WriteFloating(h, a, value)
    else if !IsWritable(xlen, a) then h
    else if a < 0x140 then WriteSupervisorSetup(xlen, h, a, value)
    else if a < 0x300 then WriteSupervisorHandling(xlen, h, a, value)
    else if a < 0x340 then WriteMachineSetup(xlen, h, a, value)
    else if a < 0xB00 then WriteMachineHandling(xlen, h, a, value)
    else WriteCounter(xlen, h, a, value)
  }
}
