/** What the interrupt controller's registers do, by their offsets and the numbers written to them, and what
    one claim and its completion do over a run. */
module PlicService {
  import opened Wrappers
  import opened Plic
  import Bits

  /** The offsets of a context's registers. */
  function EnableOffset(c: nat, word: nat): nat { 0x2000 + c * 0x80 + word * 4 }

  function ThresholdOffset(c: nat): nat { 0x20_0000 + c * 0x1000 }

  function ClaimOffset(c: nat): nat { 0x20_0004 + c * 0x1000 }

  /** Bit k of a number. */
  predicate On(v: nat, k: nat) { v / Bits.PowerOf2(k) % 2 == 1 }

  /** The states differ at most in the fields that the new one is given here and in the cached best sources. */
  predicate OnlyBest(s: State, t: State) { t == s.(best := t.best) }

  lemma Registers(c: nat)
    requires c < CONTEXTS
    ensures RegisterAt(ClaimOffset(c)) == ClaimComplete(c) && RegisterAt(ThresholdOffset(c)) == Threshold(c)
    ensures forall w: nat :: w < 2 ==> RegisterAt(EnableOffset(c, w)) == Enable(c, w)
    ensures forall offset :: RegisterAt(offset) == ClaimComplete(c) ==> offset == ClaimOffset(c)
  {}

  /* ---- completion ---- */

  /** A write of i to the claim register of a context that has source i in service ends the service, makes i
      pending exactly when its line is up, and changes nothing else; any other write changes nothing. */
  lemma CompletionEffect(s: State, c: nat, value: nat)
    requires Inv(s) && c < CONTEXTS
    ensures var t, i := Write(s, 0x20_0004 + c * 0x1000, 4, value), value % 0x1_0000_0000;
            Inv(t) &&
            if 1 <= i <= 53 && s.claimed[c] == i then
              t.claimed == s.claimed[c := 0] && t.pending == s.pending[i := s.levels[i]] && t.levels == s.levels &&
              t.priorities == s.priorities && t.enables == s.enables && t.thresholds == s.thresholds
            else t == s
  {
    hide Best; hide SetPending; hide RegisterAt;
    Registers(c);
    var i := value % 0x1_0000_0000;
    CompleteKeeps(s, c, i);
    if 1 <= i <= 53 && s.claimed[c] == i {
      var s' := s.(claimed := s.claimed[c := 0]);
      SameScan(s, s');
      PendingAgrees(s', i, true);
      assert s.pending[i := false] == s.pending;
    }
  }

  /* ---- claim ---- */

  /** Source i could interrupt the context: pending, enabled, with a priority above the threshold. */
  predicate Waiting(s: State, c: nat, i: nat)
    requires Shaped(s) && c < CONTEXTS
  {
    1 <= i <= 53 && s.pending[i] && s.enables[c][i] && s.thresholds[c] < s.priorities[i]
  }

  /** b is the waiting source of highest priority, and of the lowest number among those; 0 when none waits. */
  ghost predicate First(s: State, c: nat, b: nat)
    requires Shaped(s) && c < CONTEXTS
  {
    if b == 0 then forall i: nat :: !Waiting(s, c, i)
    else
      Waiting(s, c, b) &&
      forall i: nat :: Waiting(s, c, i) ==>
        s.priorities[i] < s.priorities[b] || (s.priorities[i] == s.priorities[b] && b <= i)
  }

  lemma BestIsFirst(s: State, c: nat, b: nat)
    requires Shaped(s) && c < CONTEXTS && IsBest(s, c, b)
    ensures First(s, c, b)
  {
    forall i: nat ensures Waiting(s, c, i) <==> Eligible(s, c, i) {}
  }

  /** In every reachable state the line of a context is up exactly while a source waits. */
  lemma LineIsWaiting(ops: seq<Op>, s: State, c: nat)
    requires Reaches(Initial(), ops, s) && c < CONTEXTS
    ensures Inv(s) && First(s, c, s.best[c])
  {
    hide Initial; hide Reaches; hide Inv; hide First; hide IsBest;
    LineIsEligible(ops, s, c);
    InvShaped(s);
    BestIsFirst(s, c, s.best[c]);
  }

  /** Reading a claim register answers the first waiting source, which then is no longer pending and is in service. */
  lemma ClaimEffect(s: State, c: nat)
    requires Inv(s) && c < CONTEXTS
    ensures var (t, r) := Read(s, 0x20_0004 + c * 0x1000, 4);
            r.Some? && IsBest(s, c, r.value) && First(s, c, r.value) && Inv(t) &&
            if r.value == 0 then t == s
            else
              t.claimed == s.claimed[c := r.value] && t.pending == s.pending[r.value := false] &&
                t.levels == s.levels &&
              t.priorities == s.priorities && t.enables == s.enables && t.thresholds == s.thresholds
  {
    hide Scan; hide SetPending; hide RegisterAt; hide First;
    Registers(c);
    ClaimKeeps(s, c);
    BestIsBest(s, c);
    BestIsFirst(s, c, s.best[c]);
    PendingAgrees(s, s.best[c], false);
  }

  /* ---- lines ---- */

  /** A line that rises makes its source pending unless it is in service; any other change of a line does not. */
  lemma LevelEffect(s: State, i: nat, up: bool)
    requires Inv(s)
    ensures var t := Apply(s, Level(i, up));
            Inv(t) &&
            if 1 <= i <= 53 then
              t.levels == s.levels[i := up] &&
              t.pending == s.pending[i := s.pending[i] || (up && !s.levels[i] && i !in s.claimed)] &&
              t == s.(levels := t.levels, pending := t.pending, best := t.best)
            else t == s
  {
    hide Best; hide SetPending;
    LevelKeeps(s, i, up);
    if 1 <= i <= 53 {
      var s' := s.(levels := s.levels[i := up]);
      SameScan(s, s');
      PendingAgrees(s', i, true);
      assert s.pending[i := s.pending[i]] == s.pending;
    }
  }

  /* ---- the configuration registers ---- */

  /** A priority register takes the low three bits; that of source 0 takes nothing. */
  lemma PriorityEffect(s: State, i: nat, value: nat)
    requires Inv(s) && i <= 53
    ensures var t := Write(s, 4 * i, 4, value);
            Inv(t) && OnlyBest(s.(priorities := if i == 0 then s.priorities else s.priorities[i := value % 8]), t) &&
            Read(t, 4 * i, 4) == (t, Some(if i == 0 then s.priorities[0] else value % 8))
  {
    hide Best;
    WriteKeeps(s, 4 * i, 4, value);
    assert RegisterAt(4 * i) == Priority(i);
    RefreshAgrees(s.(priorities := s.priorities[i := value % 8]));
  }

  lemma ThresholdEffect(s: State, c: nat, value: nat)
    requires Inv(s) && c < CONTEXTS
    ensures var t := Write(s, 0x20_0000 + c * 0x1000, 4, value);
            Inv(t) && OnlyBest(s.(thresholds := s.thresholds[c := value % 8]), t) &&
            Read(t, 0x20_0000 + c * 0x1000, 4) == (t, Some(value % 8))
  {
    hide Best; hide RegisterAt;
    Registers(c);
    WriteKeeps(s, 0x20_0000 + c * 0x1000, 4, value);
  }

  /** An enable word takes its 32 bits as they are, except that of source 0, and reads back what it holds. */
  lemma EnableEffect(s: State, c: nat, word: nat, value: nat, k: nat)
    requires Inv(s) && c < CONTEXTS && word < 2 && k < 64
    ensures var t := Write(s, 0x2000 + c * 0x80 + word * 4, 4, value);
            Inv(t) && OnlyBest(s.(enables := s.enables[c := t.enables[c]]), t) &&
            (t.enables[c][k] <==>
              if k == 0 then false else if 32 * word <= k < 32 * word + 32 then On(value, k - 32 * word)
                  else s.enables[c][k])
  {
    hide Best; hide RegisterAt; hide Bits.Of;
    Registers(c);
    var offset := EnableOffset(c, word);
    WriteKeeps(s, offset, 4, value);
    if 32 * word <= k < 32 * word + 32 { Bits.OfIs(value, 32, k - 32 * word); }
    assert WithWord(s.enables[c], word, value)[k] ==
        if 32 * word <= k < 32 * word + 32 then Bits.Of(value, 32)[k - 32 * word] else s.enables[c][k];
  }

  /** The pending words read as the pending bits of their 32 sources. */
  lemma PendingRead(s: State, word: nat, k: nat)
    requires Inv(s) && word < 2 && k < 32
    ensures var (t, p) := Read(s, 0x1000 + word * 4, 4);
            t == s && p.Some? && (On(p.value, k) <==> s.pending[32 * word + k])
  {
    hide Best; hide WordOf;
    assert RegisterAt(0x1000 + word * 4) == PendingWord(word);
    WordBit(s.pending, word, k);
  }

  /** The enable words read as the enables of their 32 sources. */
  lemma EnableRead(s: State, c: nat, word: nat, k: nat)
    requires Inv(s) && c < CONTEXTS && word < 2 && k < 32
    ensures var (t, e) := Read(s, 0x2000 + c * 0x80 + word * 4, 4);
            t == s && e.Some? && (On(e.value, k) <==> s.enables[c][32 * word + k])
  {
    hide Best; hide WordOf; hide RegisterAt;
    Registers(c);
    assert EnableOffset(c, word) == 0x2000 + c * 0x80 + word * 4;
    WordBit(s.enables[c], word, k);
  }

  /** Nothing but a claim changes anything by reading, and an access that is not an aligned word never does. */
  lemma OtherAccesses(s: State, offset: nat, width: nat, value: nat)
    requires Inv(s)
    ensures offset != ClaimOffset(0) && offset != ClaimOffset(1) ==> Read(s, offset, width).0 == s
    ensures width != 4 || offset % 4 != 0 ==> Read(s, offset, width) == (s, None) && Write(s, offset, width, value) == s
  {
    hide Best; hide RegisterAt;
    Registers(0); Registers(1);
    if RegisterAt(offset).ClaimComplete? { ContextBound(offset); }
  }

  lemma ContextBound(offset: nat)
    requires RegisterAt(offset).ClaimComplete?
    ensures RegisterAt(offset) == ClaimComplete(0) || RegisterAt(offset) == ClaimComplete(1)
  {}

  lemma WordBit(bits: seq<bool>, word: nat, k: nat)
    requires |bits| == 64 && word < 2 && k < 32
    ensures On(WordOf(bits, word), k) <==> bits[32 * word + k]
  {
    hide Bits.Of; hide Bits.Value;
    var b := bits[32 * word..32 * word + 32];
    Bits.OfValue(b);
    Bits.OfIs(Bits.Value(b), 32, k);
  }

  /* ---- one service over a run ---- */

  /** The operation reads or writes the claim register of this context. */
  predicate Serves(op: Op, c: nat) { !op.Level? && op.offset == ClaimOffset(c) && op.width == 4 }

  /** Source i is in service in context c and so cannot become pending. */
  predicate InService(s: State, c: nat, i: nat)
    requires Shaped(s) && c < CONTEXTS
  {
    1 <= i <= 53 && s.claimed[c] == i && !s.pending[i]
  }

  lemma ServiceStep(s: State, op: Op, c: nat, i: nat)
    requires Inv(s) && c < CONTEXTS && InService(s, c, i) && !Serves(op, c)
    ensures Inv(Apply(s, op)) && InService(Apply(s, op), c, i)
  {
    hide Best; hide RegisterAt; hide WithWord; hide Complete; hide Claim;
    ApplyKeeps(s, op);
    match op
    case Level(j, up) => LevelEffect(s, j, up);
    case ReadOp(offset, width) =>
      var r := RegisterAt(offset);
      if Accepted(offset, width) && r.ClaimComplete? {
        Registers(r.context);
        Registers(c);
        ClaimEffect(s, r.context);
        var b := Claim(s, r.context).1;
        assert b != i || b == 0;
      }
    case WriteOp(offset, width, value) =>
      var r := RegisterAt(offset);
      if Accepted(offset, width) && r.ClaimComplete? {
        Registers(r.context);
        Registers(c);
        CompletionEffect(s, r.context, value);
      }
  }

  lemma {:induction false} ServiceRun(s: State, ops: seq<Op>, t: State, c: nat, i: nat)
    requires Inv(s) && c < CONTEXTS && InService(s, c, i) && Reaches(s, ops, t) && forall op ::
        op in ops ==> !Serves(op, c)
    ensures Inv(t) && InService(t, c, i)
    decreases |ops|
  {
    hide Apply; hide Inv; hide InService; hide Serves;
    InvShaped(s);
    if ops != [] {
      assert ops[0] in ops;
      ServiceStep(s, ops[0], c, i);
      ServiceRun(Apply(s, ops[0]), ops[1..], t, c, i);
    }
  }

  /** From the claim of a source to its completion, whatever else happens in between, it stays in service and is
      not pending. Its completion makes it pending exactly when its line is then up; if so, and it is enabled
      above the threshold, it is eligible again and the line of the context is raised. */
  lemma ServiceCompletes(s: State, ops: seq<Op>, t: State, c: nat)
    requires Inv(s) && c < CONTEXTS && s.best[c] != 0
    requires Reaches(Apply(s, ReadOp(0x20_0004 + c * 0x1000, 4)), ops, t) && forall op :: op in ops ==> !Serves(op, c)
    ensures var i := Read(s, 0x20_0004 + c * 0x1000, 4).1;
            i.Some? && 1 <= i.value <= 53 && Inv(t) && t.claimed[c] == i.value && !t.pending[i.value] &&
            var u := Apply(t, WriteOp(0x20_0004 + c * 0x1000, 4, i.value));
            Inv(u) && u.claimed == t.claimed[c := 0] && u.pending == t.pending[i.value := t.levels[i.value]] &&
            (t.levels[i.value] && t.enables[c][i.value] && t.priorities[i.value] > t.thresholds[c] ==>
               Eligible(u, c, i.value) && u.best[c] != 0)
  {
    hide Scan; hide RegisterAt; hide Claim; hide Complete; hide Reaches;
    ClaimEffect(s, c);
    BestIsUnique(s, c, s.best[c], Read(s, ClaimOffset(c), 4).1.value) by { BestIsBest(s, c); }
    var i := Read(s, ClaimOffset(c), 4).1.value;
    ServiceRun(Apply(s, ReadOp(ClaimOffset(c), 4)), ops, t, c, i);
    CompletionEffect(t, c, i);
    var u := Apply(t, WriteOp(ClaimOffset(c), 4, i));
    BestIsBest(u, c);
  }
}
