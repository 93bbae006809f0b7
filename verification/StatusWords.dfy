/** mstatus as the word that the program keeps: each update by its masks, and why the fields of
    Hart.Status say all there is to say about it. */
module StatusWords {
  import opened Wrappers
  import opened Paging
  import opened Hart
  import opened HartProofs
  import opened Bits

  /* ---- words by bit positions ---- */

  function Keep(w: Word, mask: set<nat>): (r: Word)
    ensures |r| == |w|
  {
    seq(|w|, i requires 0 <= i < |w| => w[i] && i in mask)
  }

  function Drop(w: Word, mask: set<nat>): (r: Word)
    ensures |r| == |w|
  {
    seq(|w|, i requires 0 <= i < |w| => w[i] && i !in mask)
  }

  function Raise(w: Word, mask: set<nat>): (r: Word)
    ensures |r| == |w|
  {
    seq(|w|, i requires 0 <= i < |w| => w[i] || i in mask)
  }

  function Join(v: Word, w: Word): (r: Word)
    requires |v| == |w|
    ensures |r| == |w|
  {
    seq(|w|, i requires 0 <= i < |w| => v[i] || w[i])
  }

  /* ---- sanitize_mstatus ---- */

  function WritableBits(xlen: Xlen): set<nat> {
    match xlen
    case Rv32 => {1, 3, 5, 7, 8, 11, 12, 17, 18, 19, 20, 21, 22}
    case Rv64 => {1, 3, 5, 7, 8, 11, 12, 13, 14, 17, 18, 19, 20, 21, 22}
  }

  function FixedBits(xlen: Xlen): set<nat> { match xlen case Rv32 => {} case Rv64 => {33, 35} }

  function SanitizeWord(xlen: Xlen, w: Word): (r: Word)
    requires |w| == Width(xlen)
    ensures |r| == |w|
  {
    var masked := Raise(Keep(w, WritableBits(xlen)), FixedBits(xlen));
    var r := if masked[12] && !masked[11] then Drop(masked, {11, 12}) else masked;
    if xlen == Rv32 then r else if r[13] && r[14] then Raise(r, {63}) else Drop(r, {63})
  }

  /** A word that sanitize_mstatus would leave alone. */
  predicate Settled(xlen: Xlen, w: Word) { |w| == Width(xlen) && SanitizeWord(xlen, w) == w }

  lemma SanitizedAt(xlen: Xlen, w: Word, i: nat)
    requires |w| == Width(xlen) && i < |w|
    ensures SanitizeWord(xlen, w)[i] == SanitizedBit(xlen, w, i)
  {
  }

  /** Sanitizing settles. */
  lemma SanitizeSettles(xlen: Xlen, w: Word)
    requires |w| == Width(xlen)
    ensures Settled(xlen, SanitizeWord(xlen, w))
  {
    hide SanitizeWord;
    var v := SanitizeWord(xlen, w);
    forall i | 0 <= i < |w| ensures SanitizeWord(xlen, v)[i] == v[i] {
      SanitizedAt(xlen, v, i);
      SanitizedAt(xlen, w, i);
      SanitizedAt(xlen, w, 11);
      SanitizedAt(xlen, w, 12);
      if xlen == Rv64 { SanitizedAt(xlen, w, 13); SanitizedAt(xlen, w, 14); }
    }
  }

  /** What settled means: no reserved MPP, SD exactly when FS is Dirty, UXL and SXL fixed, and
      nothing in an unimplemented bit. */
  lemma SettledMeans(xlen: Xlen, w: Word)
    requires |w| == Width(xlen)
    ensures Settled(xlen, w) <==>
              !(w[12] && !w[11]) && (xlen == Rv64 ==> w[33] && w[35] && w[63] == (w[13] && w[14])) &&
              forall i :: 0 <= i < |w| && i !in WritableBits(xlen) && i !in {33, 35, 63} ==> !w[i]
  {
    hide SanitizeWord;
    if Settled(xlen, w) {
      forall i | 0 <= i < |w| ensures w[i] == SanitizedBit(xlen, w, i) { SanitizedAt(xlen, w, i); }
    }
    if !(w[12] && !w[11]) && (xlen == Rv64 ==> w[33] && w[35] && w[63] == (w[13] && w[14])) &&
       forall i :: 0 <= i < |w| && i !in WritableBits(xlen) && i !in {33, 35, 63} ==> !w[i]
    {
      forall i | 0 <= i < |w| ensures SanitizeWord(xlen, w)[i] == w[i] { SanitizedAt(xlen, w, i); }
    }
  }

  /** A bit of the word is the bit of its field: statuses that agree on it have the same bit. */
  lemma SameBit(xlen: Xlen, s: Status, t: Status, i: nat)
    requires i < 11 ==> TrapBit(s, i) == TrapBit(t, i)
    requires 11 <= i < 17 ==> TwoBitField(s, i) == TwoBitField(t, i)
    requires 17 <= i < 23 ==> AccessBit(s, i) == AccessBit(t, i)
    requires i == 63 ==> s.fs == t.fs
    ensures StatusBit(xlen, s, i) == StatusBit(xlen, t, i)
  {
    hide TrapBit; hide TwoBitField; hide AccessBit;
  }

  /** The bits that traps, returns and floating-point updates change. */
  lemma FieldBits(xlen: Xlen, s: Status)
    ensures StatusBit(xlen, s, 1) == s.sie && StatusBit(xlen, s, 3) == s.mie && StatusBit(xlen, s, 5) == s.spie
    ensures StatusBit(xlen, s, 7) == s.mpie && StatusBit(xlen, s, 8) == s.spp && StatusBit(xlen, s, 17) == s.mprv
    ensures StatusBit(xlen, s, 11) == (s.mpp != User) && StatusBit(xlen, s, 12) == (s.mpp == Machine)
    ensures StatusBit(xlen, s, 63) == (xlen == Rv64 && s.fs == Dirty)
    ensures StatusBit(xlen, s, 13) == (s.fs == Initial || s.fs == Dirty) &&
        StatusBit(xlen, s, 14) == (s.fs == Clean || s.fs == Dirty)
  {}

  /** The bits that hold no field. */
  predicate NoField(i: nat) {
    i != 1 && i != 3 && i != 5 && i != 7 && i != 8 && !(11 <= i <= 14) && !(17 <= i <= 22) && i != 63
  }

  /** Elsewhere a word of fields is its own sanitized form. */
  lemma PlainBits(xlen: Xlen, s: Status, i: nat)
    requires NoField(i)
    ensures StatusBit(xlen, s, i) == (xlen == Rv64 && (i == 33 || i == 35))
  {}

  lemma SanitizedField(xlen: Xlen, s: Status, i: nat)
    requires i < Width(xlen)
    ensures SanitizedBit(xlen, StatusBits(xlen, s), i) == StatusBit(xlen, Sanitize(xlen, s), i)
  {
    hide StatusBits; hide StatusBit;
    var t := Sanitize(xlen, s);
    FieldAt(xlen, s, i);
    if NoField(i) {
      PlainBits(xlen, t, i);
    } else if 11 <= i <= 14 || i == 63 {
      SanitizedWide(xlen, s, i);
    } else {
      SameBit(xlen, s, t, i);
    }
  }

  /** The fields of more than one bit. */
  lemma SanitizedWide(xlen: Xlen, s: Status, i: nat)
    requires i < Width(xlen) && (11 <= i <= 14 || i == 63)
    ensures SanitizedBit(xlen, StatusBits(xlen, s), i) == StatusBit(xlen, Sanitize(xlen, s), i)
  {
    hide StatusBits; hide StatusBit;
    FieldAt(xlen, s, 11);
    FieldAt(xlen, s, 12);
    FieldAt(xlen, s, 13);
    FieldAt(xlen, s, 14);
    FieldBits(xlen, s);
    FieldBits(xlen, Sanitize(xlen, s));
  }

  lemma FieldAt(xlen: Xlen, s: Status, i: nat)
    requires i < Width(xlen)
    ensures StatusBits(xlen, s)[i] == StatusBit(xlen, s, i)
  {}

  /** On the fields, sanitizing the word is Sanitize. */
  lemma SanitizeFields(xlen: Xlen, s: Status)
    ensures SanitizeWord(xlen, StatusBits(xlen, s)) == StatusBits(xlen, Sanitize(xlen, s))
  {
    hide SanitizeWord; hide StatusBit; hide SanitizedBit; hide Sanitize;
    var w := StatusBits(xlen, s);
    forall i | 0 <= i < |w| ensures SanitizeWord(xlen, w)[i] == StatusBits(xlen, Sanitize(xlen, s))[i] {
      SanitizedAt(xlen, w, i);
      SanitizedField(xlen, s, i);
    }
  }

  /** A written word is kept as the fields that it decodes to. */
  lemma SanitizeValue(xlen: Xlen, value: nat)
    ensures SanitizeWord(xlen, Of(value, Width(xlen))) == StatusBits(xlen, Sanitize(xlen, StatusOf(xlen, value)))
  {
    hide SanitizeWord; hide StatusOf; hide Of; hide StatusBit; hide Sanitize; hide SanitizedBit;
    var w := Of(value, Width(xlen));
    forall i | 0 <= i < |w| ensures SanitizeWord(xlen, w)[i] ==
        StatusBits(xlen, Sanitize(xlen, StatusOf(xlen, value)))[i] {
      SanitizedAt(xlen, w, i);
      SanitizeIsMask(xlen, value, i);
    }
  }

  /** Every settled word is the word of some fields: the record leaves nothing out. */
  lemma SettledHasFields(xlen: Xlen, w: Word)
    requires Settled(xlen, w)
    ensures w == StatusBits(xlen, Sanitize(xlen, StatusOf(xlen, Value(w))))
  {
    hide SanitizeWord; hide StatusOf; hide Of; hide Value;
    OfValue(w);
    SanitizeValue(xlen, Value(w));
  }

  /* ---- the updates, by their masks ---- */

  function PrivilegeBits(p: Privilege): set<nat> {
    match p case User => {} case Supervisor => {11} case Machine => {11, 12}
  }

  /** Trap entry to machine mode from privilege p. */
  function MachineTrapWord(xlen: Xlen, w: Word, p: Privilege): (r: Word)
    requires |w| == Width(xlen)
    ensures |r| == |w|
  {
    var status := SanitizeWord(xlen, w);
    var cleared := Drop(status, {3, 7, 11, 12});
    var saved := if status[3] then Raise(cleared, {7}) else cleared;
    SanitizeWord(xlen, Raise(saved, PrivilegeBits(p)))
  }

  function SupervisorTrapWord(xlen: Xlen, w: Word, p: Privilege): (r: Word)
    requires |w| == Width(xlen)
    ensures |r| == |w|
  {
    var status := SanitizeWord(xlen, w);
    var cleared := Drop(status, {1, 5, 8});
    var saved := if status[1] then Raise(cleared, {5}) else cleared;
    SanitizeWord(xlen, if p == Supervisor then Raise(saved, {8}) else saved)
  }

  /** The privilege that MPP holds, if it is one. */
  function PreviousPrivilege(w: Word): Option<Privilege>
    requires |w| > 12
  {
    if w[11] && w[12] then Some(Machine) else if w[11] then Some(Supervisor) else if w[12] then None else Some(User)
  }

  /** What MRET writes to mstatus, before the write sanitizes it. */
  function MretNext(xlen: Xlen, w: Word): (r: Word)
    requires |w| == Width(xlen)
    ensures |r| == |w|
  {
    var was := SanitizeWord(xlen, w);
    var cleared := Drop(was, {3, 7, 11, 12});
    var next := Raise(if was[7] then Raise(cleared, {3}) else cleared, {7});
    if PreviousPrivilege(was) != Some(Machine) then Drop(next, {17}) else next
  }

  function SretNext(xlen: Xlen, w: Word): (r: Word)
    requires |w| == Width(xlen)
    ensures |r| == |w|
  {
    var was := SanitizeWord(xlen, w);
    var cleared := Drop(was, {1, 5, 8});
    Drop(Raise(if was[5] then Raise(cleared, {1}) else cleared, {5}), {17})
  }

  /** mark_floating_point_dirty. */
  function DirtyWord(w: Word): (r: Word)
    requires |w| == 64
    ensures |r| == |w|
  {
    SanitizeWord(Rv64, Raise(Drop(w, {13, 14}), {13, 14}))
  }

  function ViewBits(xlen: Xlen): set<nat> {
    match xlen case Rv32 => {1, 5, 8, 18, 19} case Rv64 => {1, 5, 8, 13, 14, 18, 19, 33, 63}
  }

  /** A write of sstatus. */
  function SstatusWritten(xlen: Xlen, w: Word, value: Word): (r: Word)
    requires |w| == Width(xlen) == |value|
    ensures |r| == |w|
  {
    SanitizeWord(xlen, Join(Drop(w, ViewBits(xlen)), Keep(value, ViewBits(xlen))))
  }

  /** The CSR writes that reach mstatus. */
  function WriteWord(xlen: Xlen, w: Word, a: nat, value: nat): (r: Word)
    requires |w| == Width(xlen)
    ensures |r| == |w|
  {
    if IsFloating(xlen, a) then DirtyWord(w)
    else if a == SSTATUS then SstatusWritten(xlen, w, Of(value, Width(xlen)))
    else if a == MSTATUS then SanitizeWord(xlen, Of(value, Width(xlen)))
    else w
  }

  function TrapWord(xlen: Xlen, h: Hart, cause: nat, w: Word): (r: Word)
    requires |w| == Width(xlen)
    ensures |r| == |w|
  {
    if Delegated(xlen, h, cause) then SupervisorTrapWord(xlen, w, h.privilege)
        else MachineTrapWord(xlen, w, h.privilege)
  }

  function InterruptWord(xlen: Xlen, h: Hart, i: Selection, w: Word): (r: Word)
    requires |w| == Width(xlen)
    ensures |r| == |w|
  {
    if i.supervisor then SupervisorTrapWord(xlen, w, h.privilege) else MachineTrapWord(xlen, w, h.privilege)
  }

  /* ---- each update is the update of the fields ---- */

  lemma SaveMachineAt(xlen: Xlen, s: Status, p: Privilege, i: nat)
    ensures StatusBit(xlen, s.(mie := false, mpie := s.mie, mpp := p), i) ==
              ((StatusBit(xlen, s, i) && i != 3 && i != 7 && i != 11 && i != 12) || (s.mie && i == 7) ||
               (i == 11 && p != User) || (i == 12 && p == Machine))
  {
    hide StatusBit;
    FieldBits(xlen, s);
    FieldBits(xlen, s.(mie := false, mpie := s.mie, mpp := p));
    if i != 3 && i != 7 && i != 11 && i != 12 { SameBit(xlen, s, s.(mie := false, mpie := s.mie, mpp := p), i); }
  }

  lemma SaveMachine(xlen: Xlen, s: Status, p: Privilege)
    ensures var w := StatusBits(xlen, s);
            var cleared := Drop(w, {3, 7, 11, 12});
            Raise(if w[3] then Raise(cleared, {7}) else cleared, PrivilegeBits(p)) ==
              StatusBits(xlen, s.(mie := false, mpie := s.mie, mpp := p))
  {
    hide StatusBit;
    FieldBits(xlen, s);
    forall i: nat { SaveMachineAt(xlen, s, p, i); }
  }

  lemma SaveSupervisorAt(xlen: Xlen, s: Status, p: bool, i: nat)
    ensures StatusBit(xlen, s.(sie := false, spie := s.sie, spp := p), i) ==
              ((StatusBit(xlen, s, i) && i != 1 && i != 5 && i != 8) || (s.sie && i == 5) || (p && i == 8))
  {
    hide StatusBit;
    FieldBits(xlen, s);
    FieldBits(xlen, s.(sie := false, spie := s.sie, spp := p));
    if i != 1 && i != 5 && i != 8 { SameBit(xlen, s, s.(sie := false, spie := s.sie, spp := p), i); }
  }

  lemma SaveFromUser(xlen: Xlen, s: Status)
    ensures var w := StatusBits(xlen, s);
            var cleared := Drop(w, {1, 5, 8});
            (if w[1] then Raise(cleared, {5}) else cleared) ==
              StatusBits(xlen, s.(sie := false, spie := s.sie, spp := false))
  {
    hide StatusBit;
    FieldBits(xlen, s);
    forall i: nat { SaveSupervisorAt(xlen, s, false, i); }
  }

  lemma SaveSupervisor(xlen: Xlen, s: Status, p: bool)
    ensures var w := StatusBits(xlen, s);
            var cleared := Drop(w, {1, 5, 8});
            var saved := if w[1] then Raise(cleared, {5}) else cleared;
            (if p then Raise(saved, {8}) else saved) == StatusBits(xlen, s.(sie := false, spie := s.sie, spp := p))
  {
    hide StatusBits; hide Drop; hide Raise;
    SaveFromUser(xlen, s);
    RaisePrevious(xlen, s.(sie := false, spie := s.sie, spp := false));
  }

  lemma RaisePrevious(xlen: Xlen, t: Status)
    ensures Raise(StatusBits(xlen, t), {8}) == StatusBits(xlen, t.(spp := true))
  {
    hide StatusBit;
    forall i: nat { PreviousBit(xlen, t, i); }
  }

  lemma PreviousBit(xlen: Xlen, t: Status, i: nat)
    ensures StatusBit(xlen, t.(spp := true), i) == (StatusBit(xlen, t, i) || i == 8)
  {
    hide StatusBit;
    FieldBits(xlen, t.(spp := true));
    if i != 8 { SameBit(xlen, t, t.(spp := true), i); }
  }

  lemma MachineTrapFields(xlen: Xlen, s: Status, p: Privilege)
    ensures var t := Sanitize(xlen, s);
            MachineTrapWord(xlen, StatusBits(xlen, s), p) ==
              StatusBits(xlen, Sanitize(xlen, t.(mie := false, mpie := t.mie, mpp := p)))
  {
    hide SanitizeWord; hide Sanitize; hide StatusBits; hide Drop; hide Raise; hide PrivilegeBits;
    var t := Sanitize(xlen, s);
    SanitizeFields(xlen, s);
    SaveMachine(xlen, t, p);
    SanitizeFields(xlen, t.(mie := false, mpie := t.mie, mpp := p));
  }

  lemma SupervisorTrapFields(xlen: Xlen, s: Status, p: Privilege)
    ensures var t := Sanitize(xlen, s);
            SupervisorTrapWord(xlen, StatusBits(xlen, s), p) ==
              StatusBits(xlen, Sanitize(xlen, t.(sie := false, spie := t.sie, spp := p == Supervisor)))
  {
    hide SanitizeWord; hide Sanitize; hide StatusBits; hide Drop; hide Raise;
    var t := Sanitize(xlen, s);
    SanitizeFields(xlen, s);
    SaveSupervisor(xlen, t, p == Supervisor);
    SanitizeFields(xlen, t.(sie := false, spie := t.sie, spp := p == Supervisor));
  }

  lemma MppField(xlen: Xlen, s: Status)
    ensures PreviousPrivilege(StatusBits(xlen, s)) == Some(s.mpp)
  {}

  lemma RestoreMachineAt(xlen: Xlen, s: Status, i: nat)
    ensures StatusBit(xlen, MretStatus(s), i) ==
              (((StatusBit(xlen, s, i) && i != 3 && i != 7 && i != 11 && i != 12) || (s.mpie && i == 3) || i == 7) &&
                (i == 17 ==> s.mpp == Machine))
  {
    hide StatusBit;
    FieldBits(xlen, s);
    FieldBits(xlen, MretStatus(s));
    if i != 3 && i != 7 && i != 11 && i != 12 && i != 17 { SameBit(xlen, s, MretStatus(s), i); }
  }

  lemma RestoreMachine(xlen: Xlen, s: Status)
    ensures var w := StatusBits(xlen, s);
            var cleared := Drop(w, {3, 7, 11, 12});
            var next := Raise(if w[7] then Raise(cleared, {3}) else cleared, {7});
            (if s.mpp != Machine then Drop(next, {17}) else next) == StatusBits(xlen, MretStatus(s))
  {
    hide StatusBit; hide MretStatus;
    FieldBits(xlen, s);
    forall i: nat { RestoreMachineAt(xlen, s, i); }
  }

  lemma RestoreSupervisorAt(xlen: Xlen, s: Status, i: nat)
    ensures StatusBit(xlen, SretStatus(s), i) ==
              (((StatusBit(xlen, s, i) && i != 1 && i != 5 && i != 8) || (s.spie && i == 1) || i == 5) && i != 17)
  {
    hide StatusBit;
    FieldBits(xlen, s);
    FieldBits(xlen, SretStatus(s));
    if i != 1 && i != 5 && i != 8 && i != 17 { SameBit(xlen, s, SretStatus(s), i); }
  }

  lemma RestoreSupervisor(xlen: Xlen, s: Status)
    ensures var w := StatusBits(xlen, s);
            var cleared := Drop(w, {1, 5, 8});
            Drop(Raise(if w[5] then Raise(cleared, {1}) else cleared, {5}), {17}) == StatusBits(xlen, SretStatus(s))
  {
    hide StatusBit; hide SretStatus;
    FieldBits(xlen, s);
    forall i: nat { RestoreSupervisorAt(xlen, s, i); }
  }

  lemma MretFields(xlen: Xlen, s: Status)
    ensures MretNext(xlen, StatusBits(xlen, s)) == StatusBits(xlen, MretStatus(Sanitize(xlen, s)))
  {
    hide SanitizeWord; hide Sanitize; hide StatusBits; hide Drop; hide Raise; hide MretStatus; hide PreviousPrivilege;
    SanitizeFields(xlen, s);
    MppField(xlen, Sanitize(xlen, s));
    RestoreMachine(xlen, Sanitize(xlen, s));
  }

  lemma SretFields(xlen: Xlen, s: Status)
    ensures SretNext(xlen, StatusBits(xlen, s)) == StatusBits(xlen, SretStatus(Sanitize(xlen, s)))
  {
    hide SanitizeWord; hide Sanitize; hide StatusBits; hide Drop; hide Raise; hide SretStatus;
    SanitizeFields(xlen, s);
    RestoreSupervisor(xlen, Sanitize(xlen, s));
  }

  lemma DirtyAt(s: Status, w: Word, i: nat)
    requires i < |w| == 64 && w[13] && w[14] && w[11] == StatusBit(Rv64, s, 11) && w[12] == StatusBit(Rv64, s, 12)
    requires i != 13 && i != 14 ==> w[i] == StatusBit(Rv64, s, i)
    ensures SanitizedBit(Rv64, w, i) == StatusBit(Rv64, s.(fs := Dirty), i)
  {
    hide StatusBit;
    FieldBits(Rv64, s);
    FieldBits(Rv64, s.(fs := Dirty));
    if i != 13 && i != 14 && i != 63 { SameBit(Rv64, s, s.(fs := Dirty), i); }
    if NoField(i) { PlainBits(Rv64, s, i); }
  }

  lemma DirtyFields(s: Status)
    ensures DirtyWord(StatusBits(Rv64, s)) == StatusBits(Rv64, Sanitize(Rv64, s.(fs := Dirty)))
  {
    hide SanitizeWord; hide StatusBit; hide SanitizedBit;
    var w := Raise(Drop(StatusBits(Rv64, s), {13, 14}), {13, 14});
    forall i | 0 <= i < |w| ensures SanitizeWord(Rv64, w)[i] == StatusBits(Rv64, Sanitize(Rv64, s.(fs := Dirty)))[i] {
      SanitizedAt(Rv64, w, i);
      DirtyAt(s, w, i);
    }
  }

  predicate InView(xlen: Xlen, i: nat) {
    i == 1 || i == 5 || i == 8 || i == 18 || i == 19 || (xlen == Rv64 && (i == 13 || i == 14 || i == 33 || i == 63))
  }

  lemma ViewIs(xlen: Xlen, i: nat)
    ensures i in ViewBits(xlen) <==> InView(xlen, i)
  {}

  /** A bit sanitizes as it does in the word that it came from. */
  lemma JoinedBit(xlen: Xlen, v: Word, u: Word, w: Word, i: nat)
    requires i < |w| == |v| == |u| == Width(xlen)
    requires forall k: nat :: k < |w| ==> w[k] == if InView(xlen, k) then v[k] else u[k]
    ensures SanitizedBit(xlen, w, i) == SanitizedBit(xlen, if InView(xlen, i) then v else u, i)
  {
    assert w[11] == u[11] && w[12] == u[12];
    assert xlen == Rv64 ==> w[13] == v[13] && w[14] == v[14];
  }

  lemma ViewParts(s: Status, t: Status, i: nat)
    ensures var r := WithSupervisorView(s, t);
            TrapBit(r, i) == (if i == 1 || i == 5 || i == 8 then TrapBit(t, i) else TrapBit(s, i)) &&
            AccessBit(r, i) == (if i == 18 || i == 19 then AccessBit(t, i) else AccessBit(s, i)) &&
            TwoBitField(r, i) == (if i == 13 || i == 14 then TwoBitField(t, i) else TwoBitField(s, i))
  {}

  /** Sanitizing the fields clears FS where it is not implemented. */
  lemma SanitizeParts(xlen: Xlen, s: Status, i: nat)
    ensures var r := Sanitize(xlen, s);
            TrapBit(r, i) == TrapBit(s, i) && AccessBit(r, i) == AccessBit(s, i) &&
              r.fs == (if xlen == Rv32 then Off else s.fs) &&
            TwoBitField(r, i) == (TwoBitField(s, i) && !(xlen == Rv32 && (i == 13 || i == 14)))
  {}

  lemma ViewBit(xlen: Xlen, s: Status, t: Status, i: nat)
    ensures StatusBit(xlen, Sanitize(xlen, WithSupervisorView(s, t)), i) ==
              StatusBit(xlen, Sanitize(xlen, if InView(xlen, i) then t else s), i)
  {
    hide TrapBit; hide AccessBit; hide TwoBitField; hide Sanitize;
    ViewParts(s, t, i);
    SanitizeParts(xlen, s, i);
    SanitizeParts(xlen, t, i);
    SanitizeParts(xlen, WithSupervisorView(s, t), i);
  }

  lemma ViewFields(xlen: Xlen, s: Status, value: nat)
    ensures SstatusWritten(xlen, StatusBits(xlen, s), Of(value, Width(xlen))) ==
              StatusBits(xlen, Sanitize(xlen, WithSupervisorView(s, StatusOf(xlen, value))))
  {
    hide SanitizeWord; hide Of; hide StatusOf; hide StatusBit; hide SanitizedBit; hide Sanitize;
    hide WithSupervisorView; hide InView;
    hide ViewBits;
    var v, u := Of(value, Width(xlen)), StatusBits(xlen, s);
    var w := Join(Drop(u, ViewBits(xlen)), Keep(v, ViewBits(xlen)));
    var t := Sanitize(xlen, WithSupervisorView(s, StatusOf(xlen, value)));
    forall k: nat { ViewIs(xlen, k); }
    forall i: nat | i < |w| ensures SanitizeWord(xlen, w)[i] == StatusBits(xlen, t)[i] {
      SanitizedAt(xlen, w, i);
      JoinedBit(xlen, v, u, w, i);
      ViewBit(xlen, s, StatusOf(xlen, value), i);
      SanitizeIsMask(xlen, value, i);
      SanitizedField(xlen, s, i);
    }
  }

  /** Every CSR write leaves mstatus the word of the fields it leaves. */
  lemma WriteFields(xlen: Xlen, h: Hart, a: nat, value: nat)
    ensures StatusBits(xlen, WriteCsr(xlen, h, a, value).status) ==
        WriteWord(xlen, StatusBits(xlen, h.status), a, value)
  {
    hide StatusBits; hide StatusOf; hide Sanitize; hide SanitizeWord; hide DirtyWord; hide SstatusWritten; hide Of;
    hide WithSupervisorView;
    hide Bits.SetOf; hide SatpOf; hide TvecOf; hide Even; hide Masked; hide SatpModeKnown; hide High; hide Low;
    DirtyFields(h.status);
    ViewFields(xlen, h.status, value);
    SanitizeValue(xlen, value);
  }

  lemma TrapFields(xlen: Xlen, h: Hart, cause: nat, pc: nat, value: nat, i: Selection)
    ensures StatusBits(xlen, TakeTrap(xlen, h, cause, pc, value).status) ==
        TrapWord(xlen, h, cause, StatusBits(xlen, h.status))
    ensures StatusBits(xlen, TakeInterrupt(xlen, h, i).status) == InterruptWord(xlen, h, i, StatusBits(xlen, h.status))
  {
    hide StatusBits; hide Sanitize; hide MachineTrapWord; hide SupervisorTrapWord; hide Vector; hide CauseWord;
    hide Even; hide Delegated;
    MachineTrapFields(xlen, h.status, h.privilege);
    SupervisorTrapFields(xlen, h.status, h.privilege);
  }

  /** MRET and SRET of RV64, which write mstatus at once. */
  lemma ReturnFields(xlen: Xlen, h: Hart)
    ensures StatusBits(xlen, Mret(xlen, h).status) == SanitizeWord(xlen, MretNext(xlen, StatusBits(xlen, h.status)))
    ensures StatusBits(xlen, Sret(xlen, h).status) == SanitizeWord(xlen, SretNext(xlen, StatusBits(xlen, h.status)))
  {
    hide StatusBits; hide Sanitize; hide SanitizeWord; hide MretNext; hide SretNext; hide MretStatus; hide SretStatus;
    MretFields(xlen, h.status);
    SretFields(xlen, h.status);
    SanitizeFields(xlen, MretStatus(Sanitize(xlen, h.status)));
    SanitizeFields(xlen, SretStatus(Sanitize(xlen, h.status)));
  }

  /* ---- every update settles ---- */

  lemma TrapsSettle(xlen: Xlen, w: Word, h: Hart, cause: nat, i: Selection)
    requires |w| == Width(xlen)
    ensures Settled(xlen, TrapWord(xlen, h, cause, w)) && Settled(xlen, InterruptWord(xlen, h, i, w))
  {
    hide SanitizeWord; hide Of; hide Drop; hide Raise; hide Keep; hide Join; hide Delegated; hide PrivilegeBits;
    hide Settled;
    forall v: Word | |v| == Width(xlen) ensures Settled(xlen, SanitizeWord(xlen, v)) { SanitizeSettles(xlen, v); }
  }

  /** Clearing MPRV, which RV32's commit does without sanitizing, keeps a settled word settled. */
  lemma ClearSettles(xlen: Xlen, w: Word)
    requires Settled(xlen, w)
    ensures Settled(xlen, Drop(w, {17}))
  {
    hide SanitizeWord; hide SanitizedBit;
    var v := Drop(w, {17});
    SettledMeans(xlen, w);
    SettledMeans(xlen, v);
  }
}
