/** The RV32 core: one step in Reference mode (no caches) or Fast mode (with them). */
module Core32 {
  import opened Wrappers
  import opened Address
  import opened Paging
  import opened Hart
  import Tlb
  import Icache
  import Bits

  datatype Kind =
    | Illegal | Lui | Auipc | Jal | Jalr | Beq | Bne | Blt | Bge | Bltu | Bgeu
    | Lb | Lh | Lw | Lbu | Lhu | Sb | Sh | Sw
    | Addi | Slti | Sltiu | Xori | Ori | Andi | Slli | Srli | Srai
    | Add | Sub | Sll | Slt | Sltu | Xor | Srl | Sra | Or | And
    | Mul | Mulh | Mulhsu | Mulhu | Div | Divu | Rem | Remu
    | LrW | ScW | AmoSwapW | AmoAddW | AmoXorW | AmoAndW | AmoOrW | AmoMinW | AmoMaxW | AmoMinuW | AmoMaxuW
    | FenceOp | FenceI | Csrrw | Csrrs | Csrrc | Csrrwi | Csrrsi | Csrrci
    | Ecall | Ebreak | MretOp | SretOp | Wfi | SfenceVma

  datatype Decoded = Decoded(kind: Kind, raw: nat, rd: nat, rs1: nat, rs2: nat, imm: nat, csr: nat, length: nat)

  predicate InRange(d: Decoded) { d.rd < 32 && d.rs1 < 32 && d.rs2 < 32 && (d.length == 2 || d.length == 4) }

  type Instruction = d: Decoded | InRange(d) witness Decoded(Illegal, 0, 0, 0, 0, 0, 0, 4)

  /** The pure value functions of the instruction set. The results below hold for all of them. */
  datatype Isa = Isa(
    decode16: nat -> Instruction,             // compressed instructions
    decode32: nat -> Instruction,
    alu: (Kind, nat, nat, nat) -> nat,        // kind, immediate, rs1, rs2
    taken: (Kind, nat, nat) -> bool,          // branch condition of rs1, rs2
    amo: (Kind, nat, nat) -> nat,             // memory word, rs2
    extend: (Kind, nat) -> nat)               // sign or zero extension of a loaded part

  datatype Unit = Integer | Privileged | ControlFlow | Atomic | Csr | Memory

  function UnitOf(k: Kind): Unit {
    match k
    case MretOp | SretOp | Wfi | SfenceVma => Privileged
    case Auipc | Jal | Jalr | Beq | Bne | Blt | Bge | Bltu | Bgeu => ControlFlow
    case LrW | ScW | AmoSwapW | AmoAddW | AmoXorW | AmoAndW | AmoOrW | AmoMinW | AmoMaxW | AmoMinuW | AmoMaxuW => Atomic
    case Csrrw | Csrrs | Csrrc | Csrrwi | Csrrsi | Csrrci => Csr
    case Lb | Lh | Lw | Lbu | Lhu | Sb | Sh | Sw => Memory
    case _ => Integer
  }

  /* ---- the bus ---- */

  datatype Fault = NoFault | Unmapped | Misaligned

  datatype Reservation = Reservation(address: Phys, epoch: nat)

  /** RAM as 4-byte words, LR reservations by hart, and the count of writes. */
  datatype Bus = Bus(ram: Ram, reservations: map<nat, Reservation>, epoch: nat)

  /** The word that holds a naturally aligned part. */
  function Cell(p: Phys): Phys { p.(offset := p.offset - p.offset % 4) }

  function Bytes(n: nat): (r: nat)
    ensures r > 0
  {
    match n case 0 => 1 case 1 => 0x100 case 2 => 0x1_0000 case 3 => 0x100_0000 case _ => 0x1_0000_0000
  }

  function Part(word: nat, at: nat, width: nat): nat { word / Bytes(at) % Bytes(width) }

  function PutPart(word: nat, at: nat, width: nat, v: nat): nat {
    word % Bytes(at) + v % Bytes(width) * Bytes(at) + word / (Bytes(at) * Bytes(width)) * (Bytes(at) * Bytes(width))
  }

  function BusRead(b: Bus, p: Phys, width: nat): Option<nat> {
    if Cell(p) in b.ram then Some(Part(b.ram[Cell(p)], p.offset % 4, width)) else None
  }

  function BusWrite(b: Bus, p: Phys, width: nat, v: nat): Option<Bus> {
    if Cell(p) in b.ram then
      Some(b.(ram := b.ram[Cell(p) := PutPart(b.ram[Cell(p)], p.offset % 4, width, v)], epoch := b.epoch + 1))
    else None
  }

  /* ---- translation, with or without the cache ---- */

  datatype Mmu = Direct | Cached(t: Tlb.Cache)

  /** The bus after a walk: an A or D update is one bus write. */
  function Walked(b: Bus, m: Ram): Bus { if m == b.ram then b else b.(ram := m, epoch := b.epoch + 1) }

  predicate MmuReady(mmu: Mmu) { mmu.Cached? ==> Tlb.Shaped(mmu.t) }

  function MmuTranslate(b: Bus, mmu: Mmu, h: Hart, va: nat, access: Access): (r: (Translation, Bus, Mmu))
    requires MmuReady(mmu)
    ensures MmuReady(r.2) && r.2.Cached? == mmu.Cached?
  {
    var ctx := ContextOf(Rv32, h, access);
    match mmu
    case Direct => var (t, m) := Translate(b.ram, ctx, va, access); (t, Walked(b, m), mmu)
    case Cached(c) => var (t, m, c') := Tlb.CachedTranslate(c, b.ram, ctx, va, access); (t, Walked(b, m), Cached(c'))
  }

  /* ---- fetch and decode ---- */

  datatype Item = Item(raw: nat, decoded: Instruction)

  datatype DecodeLine = DecodeLine(valid: bool, length: nat, raw: nat, decoded: Instruction)

  datatype Caches = Caches(tlb: Tlb.Cache, lines: Icache.Cache<Item>, decodes: seq<DecodeLine>)

  predicate CachesShaped(c: Caches) {
    Tlb.Shaped(c.tlb) && Icache.Shaped(c.lines, Sv32) && |c.decodes| == 1024
  }

  predicate CachesReady(c: Option<Caches>) { c.Some? ==> CachesShaped(c.value) }

  function MmuOf(c: Option<Caches>): Mmu { match c case None => Direct case Some(k) => Cached(k.tlb) }

  function WithMmu(c: Option<Caches>, mmu: Mmu): Option<Caches> {
    match c case None => None case Some(k) => if mmu.Cached? then Some(k.(tlb := mmu.t)) else c
  }

  function Decode(isa: Isa, raw: nat, length: nat): Instruction {
    if length == 2 then isa.decode16(raw) else isa.decode32(raw)
  }

  function DecodeSlot(raw: nat, length: nat): (r: nat)
    ensures r < 1024
  {
    var n := (raw % 0x1_0000_0000) as bv64;
    ((n ^ (n >> 11) ^ (n >> 21) ^ (length % 8) as bv64) % 1024) as nat
  }

  /** DecodeCache::decode: the decoding, and the cache with it in place. */
  function DecodeThrough(isa: Isa, c: Option<Caches>, raw: nat, length: nat): (r: (Instruction, Option<Caches>))
    requires CachesReady(c)
    ensures CachesReady(r.1) && r.1.Some? == c.Some?
  {
    match c
    case None => (Decode(isa, raw, length), None)
    case Some(k) =>
      var i := DecodeSlot(raw, length);
      var l := k.decodes[i];
      if l.valid && l.raw == raw && l.length == length then (l.decoded, c)
      else
        var d := Decode(isa, raw, length);
        (d, Some(k.(decodes := k.decodes[i := DecodeLine(true, length, raw, d)])))
  }

  datatype Half = Half(value: nat, address: Phys) | HalfFault(cause: nat, fault: Fault)

  function FetchHalf(b: Bus, mmu: Mmu, h: Hart, va: nat): (r: (Half, Bus, Mmu))
    requires MmuReady(mmu)
    ensures MmuReady(r.2) && r.2.Cached? == mmu.Cached?
  {
    var (t, b', mmu') := MmuTranslate(b, mmu, h, va, Fetch);
    match t
    case PageFault => (HalfFault(12, NoFault), b', mmu')
    case AccessFault => (HalfFault(1, Unmapped), b', mmu')
    case Ready(p) =>
      match BusRead(b', p, 2)
      case None => (HalfFault(1, Unmapped), b', mmu')
      case Some(v) => (Half(v, p), b', mmu')
  }

  datatype Fetched = Got(item: Item) | FetchTrap(cause: nat, value: nat, raw: nat, fault: Fault)

  function KeyOf(h: Hart): Icache.Key { Icache.Key(h.pc, h.satp, h.privilege) }

  /** A page's last halfword is never looked up or inserted: its instruction may cross pages. */
  predicate AtPageEnd(pc: nat) { pc % 0x1000 == 0xFFE }

  function Keep(c: Option<Caches>, h: Hart, item: Item): (r: Option<Caches>)
    requires CachesReady(c)
    ensures CachesReady(r) && r.Some? == c.Some?
  {
    match c
    case None => None
    case Some(k) => if AtPageEnd(h.pc) then c else Some(k.(lines := Icache.Insert(k.lines, Sv32, KeyOf(h), item)))
  }

  /** Decode what was fetched and keep it, unless it is illegal. RAM is always cacheable. */
  function Finish(isa: Isa, c: Option<Caches>, h: Hart, raw: nat, length: nat): (r: (Fetched, Option<Caches>))
    requires CachesReady(c)
    ensures CachesReady(r.1) && r.1.Some? == c.Some?
  {
    var (d, c') := DecodeThrough(isa, c, raw, length);
    if d.kind == Illegal then (FetchTrap(2, raw, raw, NoFault), c')
    else (Got(Item(raw, d)), Keep(c', h, Item(raw, d)))
  }

  function FetchMiss(isa: Isa, b: Bus, h: Hart, c: Option<Caches>): (r: (Fetched, Bus, Option<Caches>))
    requires CachesReady(c)
    ensures CachesReady(r.2) && r.2.Some? == c.Some?
  {
    var (first, b1, mmu1) := FetchHalf(b, MmuOf(c), h, h.pc);
    var c1 := WithMmu(c, mmu1);
    if first.HalfFault? then (FetchTrap(first.cause, h.pc, 0, first.fault), b1, c1)
    else if first.value % 4 != 3 then
      var (f, c2) := Finish(isa, c1, h, first.value, 2);
      (f, b1, c2)
    else
      var next := Wrap(Rv32, h.pc + 2);
      var (second, b2, mmu2) := FetchHalf(b1, mmu1, h, next);
      var c2 := WithMmu(c1, mmu2);
      if second.HalfFault? then (FetchTrap(second.cause, next, first.value, second.fault), b2, c2)
      else
        var (f, c3) := Finish(isa, c2, h, first.value + second.value * 0x1_0000, 4);
        (f, b2, c3)
  }

  function FetchDecode(isa: Isa, b: Bus, h: Hart, c: Option<Caches>): (r: (Fetched, Bus, Option<Caches>))
    requires CachesReady(c)
    ensures CachesReady(r.2) && r.2.Some? == c.Some?
  {
    if h.pc % 2 != 0 then (FetchTrap(0, h.pc, 0, Misaligned), b, c)
    else if c.Some? && !AtPageEnd(h.pc) && Icache.Lookup(c.value.lines, Sv32, KeyOf(h)).Some? then
      (Got(Icache.Lookup(c.value.lines, Sv32, KeyOf(h)).value), b, c)
    else FetchMiss(isa, b, h, c)
  }

  /* ---- the execution units ---- */

  /** A result to be committed in one step. */
  datatype Commit = Commit(pc: nat, next: nat, reg: Option<(nat, nat)>, csr: Option<(nat, nat)>,
                           privilege: Option<Privilege>, wait: bool)

  datatype Outcome = Retire(c: Commit) | Trap(cause: nat, value: nat, fault: Fault) | NotMine

  function Next(pc: nat, d: Instruction): nat { Wrap(Rv32, pc + d.length) }

  function Simple(pc: nat, next: nat, reg: Option<(nat, nat)>): Outcome {
    Retire(Commit(pc, next, reg, None, None, false))
  }

  function RunInteger(isa: Isa, h: Hart, d: Instruction, a: nat, b: nat): Outcome {
    match d.kind
    case Lui | Addi | Slti | Sltiu | Xori | Ori | Andi | Slli | Srli | Srai | Add | Sub | Sll | Slt | Sltu | Xor
      | Srl | Sra | Or | And | Mul | Mulh | Mulhsu | Mulhu | Div | Divu | Rem | Remu =>
      Simple(h.pc, Next(h.pc, d), Some((d.rd, isa.alu(d.kind, d.imm, a, b))))
    case FenceOp | FenceI => Simple(h.pc, Next(h.pc, d), None)
    case Ecall => Trap(match h.privilege case User => 8 case Supervisor => 9 case Machine => 11, 0, NoFault)
    case Ebreak => Trap(3, h.pc, NoFault)
    case _ => NotMine
  }

  function RunPrivileged(h: Hart, d: Instruction): Outcome {
    var illegal := Trap(2, d.raw, NoFault);
    match d.kind
    case SfenceVma => if SfenceAllowed(h) then Simple(h.pc, Next(h.pc, d), None) else illegal
    case Wfi => if WfiAllowed(h) then Retire(Commit(h.pc, Next(h.pc, d), None, None, None, true)) else illegal
    case MretOp =>
      if MretAllowed(h) then
        var s := Sanitize(Rv32, h.status);
        Retire(Commit(h.pc, h.mepc, None, Some((MSTATUS, StatusWord(Rv32, MretStatus(s)))), Some(s.mpp), false))
      else illegal
    case SretOp =>
      if SretAllowed(h) then
        var s := Sanitize(Rv32, h.status);
        Retire(Commit(h.pc, h.sepc, None, Some((SSTATUS, StatusWord(Rv32, SretStatus(s)))),
                      Some(if s.spp then Supervisor else User), false))
      else illegal
    case _ => NotMine
  }

  /** A taken target must be two-byte aligned. */
  function Jump(h: Hart, target: nat, reg: Option<(nat, nat)>): Outcome {
    if target % 2 != 0 then Trap(0, target, NoFault) else Simple(h.pc, target, reg)
  }

  function RunControlFlow(isa: Isa, h: Hart, d: Instruction, a: nat, b: nat): Outcome {
    var next, target := Next(h.pc, d), Wrap(Rv32, h.pc + d.imm);
    match d.kind
    case Auipc => Simple(h.pc, next, Some((d.rd, target)))
    case Jal => Jump(h, target, Some((d.rd, next)))
    case Jalr => Jump(h, Even(Wrap(Rv32, a + d.imm)), Some((d.rd, next)))
    case Beq | Bne | Blt | Bge | Bltu | Bgeu =>
        if isa.taken(d.kind, a, b) then Jump(h, target, None) else Simple(h.pc, next, None)
    case _ => NotMine
  }

  /** The kinds that execute_atomic lists besides LR and SC. */
  predicate IsAmo(k: Kind) {
    match k
    case AmoSwapW | AmoAddW | AmoXorW | AmoAndW | AmoOrW | AmoMinW | AmoMaxW | AmoMinuW | AmoMaxuW => true
    case _ => false
  }

  /** The trap for a translation or bus failure of a load or a store. */
  function AccessTrap(load: bool, page: bool, va: nat): Outcome {
    Trap(if page then (if load then 13 else 15) else (if load then 5 else 7), va, if page then NoFault else Unmapped)
  }

  function MisalignedTrap(load: bool, va: nat): Outcome { Trap(if load then 4 else 6, va, Misaligned) }

  function RunAtomic(isa: Isa, b: Bus, mmu: Mmu, h: Hart, d: Instruction, va: nat, v: nat): (r: (Outcome, Bus, Mmu))
    requires MmuReady(mmu)
    ensures MmuReady(r.2) && r.2.Cached? == mmu.Cached?
  {
    if d.kind != LrW && d.kind != ScW && !IsAmo(d.kind) then (NotMine, b, mmu)
    else
      var load := d.kind == LrW;
      if va % 4 != 0 then (MisalignedTrap(load, va), b, mmu)
      else
        var (t, b', mmu') := MmuTranslate(b, mmu, h, va, if load then Load else Store);
        match t
        case PageFault => (AccessTrap(load, true, va), b', mmu')
        case AccessFault => (AccessTrap(load, false, va), b', mmu')
        case Ready(p) =>
          var (o, b'') := AtomicAccess(isa, b', h, d, p, va, v);
          (o, b'', mmu')
  }

  function Ok(h: Hart, d: Instruction, v: nat): Outcome { Simple(h.pc, Next(h.pc, d), Some((d.rd, v))) }

  /** LR.W, SC.W or an AMO on the bus. */
  function AtomicAccess(isa: Isa, b: Bus, h: Hart, d: Instruction, p: Phys, va: nat, v: nat): (Outcome, Bus) {
    var was := BusRead(b, p, 4);
    if d.kind == LrW then
      if was.None? then (AccessTrap(true, false, va), b)
      else (Ok(h, d, was.value), b.(reservations := b.reservations[h.id := Reservation(p, b.epoch)]))
    else if d.kind == ScW then
      var matches := h.id in b.reservations && b.reservations[h.id] == Reservation(p, b.epoch);
      var b' := b.(reservations := b.reservations - {h.id});
      if was.None? then (AccessTrap(false, false, va), b')
      else if !matches then (Ok(h, d, 1), b')
      else
        match BusWrite(b', p, 4, v)
        case None => (AccessTrap(false, false, va), b')
        case Some(b'') => (Ok(h, d, 0), b'')
    else
      if was.None? then (AccessTrap(false, false, va), b)
      else
        match BusWrite(b, p, 4, isa.amo(d.kind, was.value, v))
        case None => (AccessTrap(false, false, va), b)
        case Some(b') => (Ok(h, d, was.value), b')
  }

  /** The switch of execute_csr: whether a kind reads and writes the CSR, and its operand. */
  datatype CsrPlan = NotCsr | CsrPlan(looks: bool, writes: bool, source: nat)

  function PlanCsr(d: Instruction, a: nat): CsrPlan {
    match d.kind
    case Csrrw => CsrPlan(d.rd != 0, true, a)
    case Csrrs | Csrrc => CsrPlan(true, d.rs1 != 0, a)
    case Csrrwi => CsrPlan(d.rd != 0, true, d.imm)
    case Csrrsi | Csrrci => CsrPlan(true, d.imm != 0, d.imm)
    case _ => NotCsr
  }

  function Modified(k: Kind, base: nat, source: nat): nat {
    match k
    case Csrrs | Csrrsi => Bits.Or(base, source, 32)
    case Csrrc | Csrrci => Bits.AndNot(base, source, 32)
    case _ => source
  }

  function RunCsr(h: Hart, time: nat, d: Instruction, a: nat): Outcome {
    match PlanCsr(d, a)
    case NotCsr => NotMine
    case CsrPlan(looks, writes, source) =>
      if writes && ValidateWrite(Rv32, h, d.csr, h.privilege) != CsrReady then Trap(2, d.raw, NoFault)
      else if looks && ValidateRead(Rv32, h, d.csr, h.privilege) != CsrReady then Trap(2, d.raw, NoFault)
      else
        var was := if looks then ReadCsr(Rv32, h, time, d.csr) else 0;
        var base := if writes && d.kind != Csrrw && d.kind != Csrrwi then ReadForWrite(Rv32, h, d.csr, was) else was;
        Retire(Commit(h.pc, Next(h.pc, d), if d.rd != 0 then Some((d.rd, was)) else None,
                      if writes then Some((d.csr, Modified(d.kind, base, source))) else None, None, false))
  }

  /** The switch of execute_memory: loads, stores and their widths. */
  predicate IsLoad(k: Kind) {
    match k case Lb | Lbu | Lh | Lhu | Lw => true case _ => false
  }

  predicate IsStore(k: Kind) {
    match k case Sb | Sh | Sw => true case _ => false
  }

  function AccessWidth(k: Kind): (r: nat)
    ensures r > 0
  {
    match k case Lh | Lhu | Sh => 2 case Lw | Sw => 4 case _ => 1
  }

  function RunMemory(isa: Isa, b: Bus, mmu: Mmu, h: Hart, d: Instruction, a: nat, v: nat): (r: (Outcome, Bus, Mmu))
    requires MmuReady(mmu)
    ensures MmuReady(r.2) && r.2.Cached? == mmu.Cached?
  {
    if !IsLoad(d.kind) && !IsStore(d.kind) then (NotMine, b, mmu)
    else
      var va, width := Wrap(Rv32, a + d.imm), AccessWidth(d.kind);
      var load := IsLoad(d.kind);
      if va % width != 0 then (MisalignedTrap(load, va), b, mmu)
      else
        var (t, b', mmu') := MmuTranslate(b, mmu, h, va, if load then Load else Store);
        match t
        case PageFault => (AccessTrap(load, true, va), b', mmu')
        case AccessFault => (AccessTrap(load, false, va), b', mmu')
        case Ready(p) =>
          var (o, b'') := MemoryAccess(isa, b', h, d, p, va, v, load);
          (o, b'', mmu')
  }

  /** A load or a store on the bus. */
  function MemoryAccess(isa: Isa, b: Bus, h: Hart, d: Instruction, p: Phys, va: nat, v: nat,
      load: bool): (Outcome, Bus) {
    if load then
      match BusRead(b, p, AccessWidth(d.kind))
      case None => (AccessTrap(true, false, va), b)
      case Some(raw) => (Ok(h, d, isa.extend(d.kind, raw)), b)
    else
      match BusWrite(b, p, AccessWidth(d.kind), v)
      case None => (AccessTrap(false, false, va), b)
      case Some(b') => (Simple(h.pc, Next(h.pc, d), None), b')
  }

  /** The unit that the kind names, and no other: Fast mode. */
  function RunUnit(isa: Isa, b: Bus, mmu: Mmu, h: Hart, time: nat, d: Instruction): (r: (Outcome, Bus, Mmu))
    requires MmuReady(mmu)
    ensures MmuReady(r.2) && r.2.Cached? == mmu.Cached?
  {
    var rs1, rs2 := Reg(h, d.rs1), Reg(h, d.rs2);
    match UnitOf(d.kind)
    case Integer => (RunInteger(isa, h, d, rs1, rs2), b, mmu)
    case Privileged => (RunPrivileged(h, d), b, mmu)
    case ControlFlow => (RunControlFlow(isa, h, d, rs1, rs2), b, mmu)
    case Atomic => RunAtomic(isa, b, mmu, h, d, rs1, rs2)
    case Csr => (RunCsr(h, time, d, rs1), b, mmu)
    case Memory => RunMemory(isa, b, mmu, h, d, rs1, rs2)
  }

  function Reg(h: Hart, i: nat): nat { if i < |h.x| then h.x[i] else 0 }

  /** Every unit in turn until one accepts: Reference mode. */
  function RunAll(isa: Isa, b: Bus, mmu: Mmu, h: Hart, time: nat, d: Instruction): (r: (Outcome, Bus, Mmu))
    requires MmuReady(mmu)
    ensures MmuReady(r.2) && r.2.Cached? == mmu.Cached?
  {
    var rs1, rs2 := Reg(h, d.rs1), Reg(h, d.rs2);
    var o := RunInteger(isa, h, d, rs1, rs2);
    if o != NotMine then (o, b, mmu)
    else
      var o := RunPrivileged(h, d);
      if o != NotMine then (o, b, mmu)
      else
        var o := RunControlFlow(isa, h, d, rs1, rs2);
        if o != NotMine then (o, b, mmu)
        else
          var (o, b', mmu') := RunAtomic(isa, b, mmu, h, d, rs1, rs2);
          if o != NotMine then (o, b', mmu')
          else
            var o := RunCsr(h, time, d, rs1);
            if o != NotMine then (o, b', mmu')
            else
              var (o, b'', mmu'') := RunMemory(isa, b', mmu', h, d, rs1, rs2);
              if o != NotMine then (o, b'', mmu'') else (Trap(2, d.raw, NoFault), b'', mmu'')
  }

  /* ---- commit and the step ---- */

  /** commit_pending: all of it or nothing. */
  function Committed(h: Hart, c: Commit): Option<Hart> {
    if c.pc != h.pc || (c.reg.Some? && c.reg.value.0 >= |h.x|) then None
    else if c.csr.Some? && ValidateWrite(Rv32, h, c.csr.value.0, h.privilege) != CsrReady then None
    else
      var x := if c.reg.Some? && c.reg.value.0 != 0 then h.x[c.reg.value.0 := c.reg.value.1] else h.x;
      var h1 := h.(x := Zeroed(x), privilege := if c.privilege.Some? then c.privilege.value else h.privilege,
                   pc := c.next, retired := (h.retired + 1) % 0x1_0000_0000_0000_0000, waiting := c.wait);
      var h2 := if c.csr.Some? then WriteCsr(Rv32, h1, c.csr.value.0, c.csr.value.1) else h1;
      Some(if c.privilege.Some? && c.privilege.value != Machine then h2.(status := h2.status.(mprv := false)) else h2)
  }

  datatype StepStatus = Retired | TrapTaken | WaitingForInterrupt | CoreNotImplemented

  datatype Trace = Trace(privilege: Privilege, pc: nat, raw: nat, next: nat, length: nat, reg: Option<(nat, nat)>)

  datatype StepResult = StepResult(status: StepStatus, pc: nat, raw: nat, value: nat, fault: Fault, cycle: nat,
      commit: Option<Trace>)

  /** What the platform supplies to a step: interrupt lines and the time register. */
  datatype Input = Input(lines: set<nat>, time: nat)

  /** SFENCE.VMA operands: x0 stands for every address or every ASID. */
  function FenceAddress(h: Hart, d: Instruction): Option<nat> { if d.rs1 == 0 then None else Some(Reg(h, d.rs1)) }

  function FenceAsid(h: Hart, d: Instruction): Option<nat> { if d.rs2 == 0 then None else Some(Reg(h, d.rs2) % 0x200) }

  const BlankDecode: DecodeLine := DecodeLine(false, 0, 0, Decoded(Illegal, 0, 0, 0, 0, 0, 0, 4))

  /** The cache maintenance that follows a commit. h is the state before it. */
  function Maintain(c: Option<Caches>, h: Hart, d: Instruction): (r: Option<Caches>)
    requires CachesReady(c)
    ensures CachesReady(r)
  {
    match c
    case None => None
    case Some(k) =>
      if d.kind == SfenceVma then
        Some(k.(tlb := Tlb.Fence(k.tlb, Sv32, FenceAddress(h, d), FenceAsid(h, d)),
                lines := Icache.Fence(k.lines, Sv32, FenceAddress(h, d), FenceAsid(h, d))))
      else if d.kind == FenceI then
        Some(k.(decodes := seq(1024, _ => BlankDecode), lines := Icache.Clear(k.lines, Sv32)))
      else c
  }

  function Trapped(h: Hart, raw: nat, cause: nat, value: nat, fault: Fault): (StepResult, Hart) {
    (StepResult(TrapTaken, h.pc, raw, value, fault, h.cycle, None), TakeTrap(Rv32, h, cause, h.pc, value))
  }

  datatype Begun = Idle(h: Hart) | Interrupted(h: Hart, i: Selection) | Runs(h: Hart)

  function Begin(h: Hart, lines: set<nat>): Begun {
    var h1 := Sampled(h.(x := Zeroed(h.x)), lines);
    if h1.waiting && !WakeRequested(h1) then Idle(h1)
    else
      var h2 := h1.(waiting := false);
      match SelectFrom(h2, PriorityOrder)
      case Some(i) => Interrupted(h2, i)
      case None => Runs(h2)
  }

  /** What retiring or trapping makes of an outcome. */
  function Conclude(h: Hart, item: Item, o: Outcome): (StepResult, Hart) {
    var d := item.decoded;
    match o
    case Trap(cause, value, fault) => Trapped(h, item.raw, cause, value, fault)
    case NotMine => (StepResult(CoreNotImplemented, h.pc, item.raw, item.raw, NoFault, h.cycle, None), h)
    case Retire(c) =>
      match Committed(h, c)
      case None => (StepResult(CoreNotImplemented, h.pc, item.raw, item.raw, NoFault, h.cycle, None), h)
      case Some(h') =>
        (StepResult(if h'.waiting then WaitingForInterrupt else Retired, h.pc, item.raw, 0, NoFault, h'.cycle,
                    Some(Trace(h.privilege, c.pc, item.raw, h'.pc, d.length,
                               if c.reg.Some? && c.reg.value.0 != 0 then c.reg else None))), h')
  }

  /** Core::step. c is None in Reference mode and the caches in Fast mode. */
  function Step(isa: Isa, h: Hart, b: Bus, c: Option<Caches>,
      input: Input): (r: (StepResult, Hart, Bus, Option<Caches>))
    requires CachesReady(c)
    ensures CachesReady(r.3)
  {
    match Begin(h, input.lines)
    case Idle(h1) => (StepResult(WaitingForInterrupt, h1.pc, 0, 0, NoFault, h1.cycle, None), h1, b, c)
    case Interrupted(h1, i) => (StepResult(TrapTaken, h1.pc, 0, 0, NoFault, h1.cycle, None),
        TakeInterrupt(Rv32, h1, i), b, c)
    case Runs(h1) =>
      var (f, b1, c1) := FetchDecode(isa, b, h1, c);
      match f
      case FetchTrap(cause, value, raw, fault) => var (r, h2) := Trapped(h1, raw, cause, value, fault); (r, h2, b1, c1)
      case Got(item) =>
        var (o, b2, mmu) := if c.None? then RunAll(isa, b1, Direct, h1, input.time, item.decoded)
                            else RunUnit(isa, b1, MmuOf(c1), h1, input.time, item.decoded);
        var (r, h2) := Conclude(h1, item, o);
        (r, h2, b2, if r.commit.Some? then Maintain(WithMmu(c1, mmu), h1, item.decoded) else WithMmu(c1, mmu))
  }

  /* ---- runs ---- */

  /** What happens before a step: devices write RAM through the bus, cycles pass, lines are sampled. */
  datatype Event = Event(dma: map<Phys, nat>, cycles: nat, input: Input)

  function Dma(b: Bus, e: Event): Bus {
    b.(ram := map p | p in b.ram :: if p in e.dma then e.dma[p] else b.ram[p], epoch := b.epoch + |e.dma|)
  }

  function Elapse(h: Hart, e: Event): Hart { h.(cycle := (h.cycle + e.cycles) % 0x1_0000_0000_0000_0000) }

  /** What can be seen after a step. */
  datatype Seen = Seen(result: StepResult, h: Hart, b: Bus)

  function Run(isa: Isa, h: Hart, b: Bus, c: Option<Caches>, events: seq<Event>): seq<Seen>
    requires CachesReady(c)
    decreases |events|
  {
    if events == [] then []
    else
      var (r, h', b', c') := Step(isa, Elapse(h, events[0]), Dma(b, events[0]), c, events[0].input);
      [Seen(r, h', b')] + Run(isa, h', b', c', events[1..])
  }

  /** The caches after reset, after a change of execution mode and at construction. */
  function EmptyCaches(): Caches {
    Caches(Tlb.Empty(), Icache.Empty(Sv32), seq(1024, _ => BlankDecode))
  }
}
