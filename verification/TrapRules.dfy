/** Interrupts and traps by the numbers of the privileged architecture: which interrupt is taken, where a trap goes,
    and what its handler reads. */
module TrapRules {
  import opened Wrappers
  import opened Paging
  import opened Hart
  import opened HartProofs
  import Core32
  import Core64
  import Bits

  /* ---- which interrupt ---- */

  /** A standard interrupt that is pending and enabled, and whose target does not run above it or, at its own
      privilege, with its interrupts off. Codes: U 0, S 1, M 3. */
  predicate Arrives(h: Hart, c: nat) {
    (c == 1 || c == 3 || c == 5 || c == 7 || c == 9 || c == 11) && (c in h.mipLines || c in h.mipSoftware) &&
      c in h.mie &&
    var target := if c in h.mideleg then 1 else 3;
    PrivilegeCode(h.privilege) < target ||
    (PrivilegeCode(h.privilege) == target && if target == 1 then h.status.sie else h.status.mie)
  }

  /** Machine-level causes (3 modulo 4) before supervisor-level ones (1 modulo 4); of a level the external (8 up),
      then the software (below 4), then the timer interrupt. */
  predicate Precedes(c: nat, d: nat) {
    (c % 4 == 3 && d % 4 == 1) || (c % 4 == d % 4 && (c / 4 == 2 || (c / 4 == 0 && d / 4 == 1)))
  }

  lemma TakesArrives(h: Hart, c: nat)
    ensures Takes(h, c) <==> Arrives(h, c)
  {}

  lemma OrderPrecedes()
    ensures PriorityOrder == [11, 3, 7, 9, 1, 5]
    ensures forall i, j :: 0 <= i < j < 6 ==> Precedes(PriorityOrder[i], PriorityOrder[j])
  {}

  /** An interrupt is selected exactly when it arrives and precedes every other that does; delegation names its
      target. None is selected exactly when none arrives. */
  lemma SelectsByPriority(h: Hart)
    ensures match SelectFrom(h, PriorityOrder)
            case None => forall c :: !Arrives(h, c)
            case Some(s) => Arrives(h, s.cause) && s.supervisor == (s.cause in h.mideleg) &&
                            forall d :: Arrives(h, d) && d != s.cause ==> Precedes(s.cause, d)
  {
    hide Takes; hide Arrives; hide Precedes;
    forall c ensures Takes(h, c) <==> Arrives(h, c) { TakesArrives(h, c); }
    SelectsFirst(h, PriorityOrder);
    NoneSelected(h);
    OrderPrecedes();
    if SelectFrom(h, PriorityOrder).Some? {
      var s := SelectFrom(h, PriorityOrder).value;
      var k :| 0 <= k < |PriorityOrder| && PriorityOrder[k] == s.cause && Takes(h, PriorityOrder[k]) && forall j ::
          0 <= j < k ==> !Takes(h, PriorityOrder[j]);
      forall d | Arrives(h, d) && d != s.cause ensures Precedes(s.cause, d) {
        Standard(h, d);
        var j :| 0 <= j < 6 && PriorityOrder[j] == d;
        assert k < j;
      }
    }
  }

  lemma Standard(h: Hart, c: nat)
    requires Arrives(h, c)
    ensures exists j :: 0 <= j < 6 && PriorityOrder[j] == c
  {
    assert PriorityOrder[0] == 11 && PriorityOrder[1] == 3 && PriorityOrder[2] == 7;
    assert PriorityOrder[3] == 9 && PriorityOrder[4] == 1 && PriorityOrder[5] == 5;
  }

  /* ---- how a step begins ---- */

  /** The hart with the lines of this step sampled. */
  function Lined(h: Hart, lines: set<nat>): Hart { h.(x := Zeroed(h.x), mipLines := lines * {1, 3, 5, 7, 9, 11}) }

  /** Some standard interrupt is pending and enabled, whether or not it could be taken. */
  ghost predicate Wakes(h: Hart) {
    exists c :: c in h.mie && (c in h.mipLines || c in h.mipSoftware) && c in {1, 3, 5, 7, 9, 11}
  }

  /** A step idles exactly while the hart waits and nothing wakes it; else an arriving interrupt comes first, and
      only then an instruction. */
  lemma BeginsExactly(h: Hart, lines: set<nat>)
    ensures var l := Lined(h, lines);
            match Core32.Begin(h, lines)
            case Idle(g) => h.waiting && !Wakes(l) && g == l
            case Interrupted(g, i) =>
              (h.waiting ==> Wakes(l)) && g == l.(waiting := false) && Arrives(g, i.cause) &&
              i.supervisor == (i.cause in g.mideleg) && forall d ::
                Arrives(g, d) && d != i.cause ==> Precedes(i.cause, d)
            case Runs(g) => (h.waiting ==> Wakes(l)) && g == l.(waiting := false) && forall d :: !Arrives(g, d)
  {
    hide SelectFrom; hide Arrives; hide Precedes;
    var l := Lined(h, lines);
    SelectsByPriority(l.(waiting := false));
    if Pending(l) * l.mie != {} {
      var c :| c in Pending(l) * l.mie;
      assert Wakes(l);
    }
    if Wakes(l) {
      var c :| c in l.mie && (c in l.mipLines || c in l.mipSoftware) && c in {1, 3, 5, 7, 9, 11};
      assert c in Pending(l) * l.mie;
    }
  }

  /** RV64 counts a cycle first. */
  lemma BeginsExactly64(h: Hart, lines: set<nat>)
    ensures Core64.Begin(h, lines) == Core32.Begin(h.(cycle := (h.cycle + 1) % 0x1_0000_0000_0000_0000), lines)
  {}

  /* ---- where a trap goes and what its handler reads ---- */

  /** The addresses of a mode's trap CSRs: epc, cause, tval, tvec. */
  function TrapCsr(supervisor: bool, i: nat): nat { (if supervisor then 0x141 else 0x341) + i }

  /** The handler runs in its mode at this address with interrupts off, and reads the even pc of the interrupted
      instruction, the cause and the value; where it came from is stacked, and nothing else has changed. */
  ghost predicate Handles(xlen: Xlen, h: Hart, t: Hart, supervisor: bool, at: nat, cause: nat, value: nat) {
    (forall time :: ReadCsr(xlen, t, time, TrapCsr(supervisor, 0)) == h.pc - h.pc % 2 &&
                    ReadCsr(xlen, t, time, TrapCsr(supervisor, 1)) == cause &&
                    ReadCsr(xlen, t, time, TrapCsr(supervisor, 2)) == value) &&
    t.pc == at && !t.waiting &&
    (if supervisor then
       t.privilege == Supervisor && !t.status.sie && t.status.spie == h.status.sie &&
       t.status.spp == (h.privilege == Supervisor) &&
       t == h.(pc := t.pc, privilege := t.privilege, waiting := false, x := Zeroed(h.x), sepc := t.sepc,
               scause := t.scause, stval := t.stval, status := t.status) &&
       t.status == h.status.(sie := t.status.sie, spie := t.status.spie, spp := t.status.spp)
     else
       t.privilege == Machine && !t.status.mie && t.status.mpie == h.status.mie && t.status.mpp == h.privilege &&
       t == h.(pc := t.pc, privilege := t.privilege, waiting := false, x := Zeroed(h.x), mepc := t.mepc,
               mcause := t.mcause, mtval := t.mtval, status := t.status) &&
       t.status == h.status.(mie := t.status.mie, mpie := t.status.mpie, mpp := t.status.mpp))
  }

  lemma LegalSanitized(xlen: Xlen, s: Status)
    requires LegalStatus(xlen, s)
    ensures Sanitize(xlen, s) == s && (xlen == Rv32 ==> s.fs == Off)
  {}

  lemma TrapCsrsRead(xlen: Xlen, h: Hart, time: nat)
    ensures ReadCsr(xlen, h, time, 0x341) == h.mepc && ReadCsr(xlen, h, time, 0x342) == h.mcause &&
        ReadCsr(xlen, h, time, 0x343) == h.mtval
    ensures ReadCsr(xlen, h, time, 0x141) == h.sepc && ReadCsr(xlen, h, time, 0x142) == h.scause &&
        ReadCsr(xlen, h, time, 0x143) == h.stval
  {
    hide StatusWord; hide SstatusWord;
  }

  lemma EntersMachine(xlen: Xlen, h: Hart, cause: nat, value: nat, interrupt: bool)
    requires LegalStatus(xlen, h.status)
    ensures Handles(xlen, h, MachineTrap(xlen, h, cause, h.pc, value, interrupt), false,
                    Vector(xlen, h.mtvec, interrupt, cause), CauseWord(xlen, interrupt, cause), value)
  {
    hide Vector; hide CauseWord; hide LegalStatus; hide ReadCsr;
    LegalSanitized(xlen, h.status);
    var t := MachineTrap(xlen, h, cause, h.pc, value, interrupt);
    forall time ensures ReadCsr(xlen, t, time, 0x341) == t.mepc && ReadCsr(xlen, t, time, 0x342) == t.mcause &&
        ReadCsr(xlen, t, time, 0x343) == t.mtval { TrapCsrsRead(xlen, t, time); }
  }

  lemma EntersSupervisor(xlen: Xlen, h: Hart, cause: nat, value: nat, interrupt: bool)
    requires LegalStatus(xlen, h.status)
    ensures Handles(xlen, h, SupervisorTrap(xlen, h, cause, h.pc, value, interrupt), true,
                    Vector(xlen, h.stvec, interrupt, cause), CauseWord(xlen, interrupt, cause), value)
  {
    hide Vector; hide CauseWord; hide LegalStatus; hide ReadCsr;
    LegalSanitized(xlen, h.status);
    var t := SupervisorTrap(xlen, h, cause, h.pc, value, interrupt);
    forall time ensures ReadCsr(xlen, t, time, 0x141) == t.sepc && ReadCsr(xlen, t, time, 0x142) == t.scause &&
        ReadCsr(xlen, t, time, 0x143) == t.stval { TrapCsrsRead(xlen, t, time); }
  }

  /** An exception goes to the base of its mode's vector: supervisor mode exactly when it is delegated and did not
      come from machine mode. The handler reads its bare cause. */
  lemma ExceptionHandled(xlen: Xlen, h: Hart, cause: nat, value: nat)
    requires LegalStatus(xlen, h.status) && Only(h.medeleg, ExceptionDelegation)
    ensures var supervisor := h.privilege != Machine && cause in h.medeleg;
            var tvec := if supervisor then h.stvec else h.mtvec;
            Handles(xlen, h, TakeTrap(xlen, h, cause, h.pc, value), supervisor, tvec / 4 * 4, cause, value)
  {
    hide Handles; hide MachineTrap; hide SupervisorTrap; hide LegalStatus;
    EntersMachine(xlen, h, cause, value, false);
    EntersSupervisor(xlen, h, cause, value, false);
  }

  /** An interrupt goes to base + 4 * cause of a vectored handler, else to the base; its cause has the top bit of the
      word set and its value is 0. */
  lemma InterruptHandled(xlen: Xlen, h: Hart, i: Selection)
    requires LegalStatus(xlen, h.status)
    ensures var tvec := if i.supervisor then h.stvec else h.mtvec;
            var top, all := if xlen == Rv32 then 0x8000_0000 else 0x8000_0000_0000_0000,
                            if xlen == Rv32 then 0x1_0000_0000 else 0x1_0000_0000_0000_0000;
            var at := if tvec % 4 == 1 then (tvec - 1 + 4 * i.cause) % all else tvec / 4 * 4;
            Handles(xlen, h, TakeInterrupt(xlen, h, i), i.supervisor, at, top + i.cause, 0)
  {
    hide Handles; hide MachineTrap; hide SupervisorTrap; hide LegalStatus;
    EntersMachine(xlen, h, i.cause, 0, true);
    EntersSupervisor(xlen, h, i.cause, 0, true);
  }

  /* ---- software's side of it ---- */

  /** Where a handler was installed by a write of mtvec or stvec: a vector of a mode that is not direct or vectored
      is taken as direct. */
  lemma VectorInstalled(xlen: Xlen, h: Hart, value: nat)
    ensures WriteCsr(xlen, h, 0x305, value) == h.(mtvec := if value % 4 >= 2 then value / 4 * 4 else value)
    ensures WriteCsr(xlen, h, 0x105, value) == h.(stvec := if value % 4 >= 2 then value / 4 * 4 else value)
  {
    hide Bits.SetOf; hide StatusOf; hide Sanitize;
  }

  /** A handler that writes its epc returns there, to the even address, in the stacked mode with its stacked enable. */
  lemma ReturnsWhereWritten(xlen: Xlen, h: Hart, value: nat)
    requires LegalStatus(xlen, h.status)
    ensures var t := Mret(xlen, WriteCsr(xlen, h, 0x341, value));
            t.pc == value - value % 2 && t.privilege == h.status.mpp && t.status.mie == h.status.mpie &&
              t.status.mpie &&
            t.status.mpp == User && (t.status.mprv <==> h.status.mprv && h.status.mpp == Machine)
    ensures var t := Sret(xlen, WriteCsr(xlen, h, 0x141, value));
            t.pc == value - value % 2 && t.privilege == (if h.status.spp then Supervisor else User) &&
            t.status.sie == h.status.spie && t.status.spie && !t.status.spp && !t.status.mprv
  {
    hide Bits.SetOf; hide StatusOf; hide LegalStatus;
    LegalSanitized(xlen, h.status);
  }
}
