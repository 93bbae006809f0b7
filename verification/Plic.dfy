/** The interrupt controller: level gateways, claim and complete, and a cached best source. */
module Plic {
  import opened Wrappers
  import Bits

  const SOURCES: nat := 53
  const CONTEXTS: nat := 2

  /** pending and the two enables are the 64 bits of their register words. */
  datatype State = State(priorities: seq<nat>, pending: seq<bool>, enables: seq<seq<bool>>, thresholds: seq<nat>,
                         claimed: seq<nat>, levels: seq<bool>, best: seq<nat>)

  predicate Shaped(s: State) {
    |s.priorities| == SOURCES + 1 && |s.pending| == 64 && |s.levels| == SOURCES + 1 &&
    |s.enables| == 2 && |s.enables[0]| == 64 && |s.enables[1]| == 64 &&
    |s.thresholds| == 2 && |s.claimed| == 2 && |s.best| == 2
  }

  function Initial(): State {
    var off := seq(64, _ => false);
    State(seq(SOURCES + 1, _ => 0), off, [off, off], [0, 0], [0, 0], seq(SOURCES + 1, _ => false), [0, 0])
  }

  /* ---- the best source of a context ---- */

  predicate Eligible(s: State, c: nat, i: nat)
    requires Shaped(s) && c < CONTEXTS
  {
    1 <= i <= SOURCES && s.pending[i] && s.enables[c][i] && s.priorities[i] > s.thresholds[c]
  }

  /** Higher priority, and the lower id among equals. */
  predicate Beats(s: State, i: nat, j: nat)
    requires Shaped(s) && i <= SOURCES && j <= SOURCES
  {
    s.priorities[i] > s.priorities[j] || (s.priorities[i] == s.priorities[j] && i < j)
  }

  /** What the best source means; 0 stands for none. */
  ghost predicate IsBest(s: State, c: nat, b: nat)
    requires Shaped(s) && c < CONTEXTS
  {
    if b == 0 then forall i :: !Eligible(s, c, i)
    else Eligible(s, c, b) && forall i :: Eligible(s, c, i) && i != b ==> Beats(s, b, i)
  }

  lemma BestIsUnique(s: State, c: nat, a: nat, b: nat)
    requires Shaped(s) && c < CONTEXTS && IsBest(s, c, a) && IsBest(s, c, b)
    ensures a == b
  {}

  /** The scan from source i on, with the best so far. */
  function Scan(s: State, c: nat, i: nat, best: nat, priority: nat): (r: nat)
    requires Shaped(s) && c < CONTEXTS && 1 <= i <= SOURCES + 1
    decreases SOURCES + 1 - i
  {
    if i > SOURCES then best
    else if Eligible(s, c, i) && (s.priorities[i] > priority ||
        (s.priorities[i] == priority && (best == 0 || i < best))) then
      Scan(s, c, i + 1, i, s.priorities[i])
    else Scan(s, c, i + 1, best, priority)
  }

  function Best(s: State, c: nat): nat
    requires Shaped(s) && c < CONTEXTS
  {
    Scan(s, c, 1, 0, 0)
  }

  /** best is the best of the sources below i. */
  ghost predicate BestBelow(s: State, c: nat, i: nat, best: nat, priority: nat)
    requires Shaped(s) && c < CONTEXTS && i <= SOURCES + 1
  {
    (best == 0 ==> priority == 0 && forall j: nat :: j < i ==> !Eligible(s, c, j)) &&
    (best != 0 ==> best < i && Eligible(s, c, best) && priority == s.priorities[best] &&
                   forall j: nat :: j < i && Eligible(s, c, j) && j != best ==> Beats(s, best, j))
  }

  lemma {:induction false} ScanIsBest(s: State, c: nat, i: nat, best: nat, priority: nat)
    requires Shaped(s) && c < CONTEXTS && 1 <= i <= SOURCES + 1 && BestBelow(s, c, i, best, priority)
    ensures IsBest(s, c, Scan(s, c, i, best, priority))
    decreases SOURCES + 1 - i
  {
    if i <= SOURCES {
      if Eligible(s, c, i) && (s.priorities[i] > priority || (s.priorities[i] == priority && (best == 0 || i < best))) {
        ScanIsBest(s, c, i + 1, i, s.priorities[i]);
      } else {
        ScanIsBest(s, c, i + 1, best, priority);
      }
    }
  }

  /** The scan finds the pending, enabled source above the threshold of highest priority and
      lowest id, or 0 exactly when there is none. */
  lemma BestIsBest(s: State, c: nat)
    requires Shaped(s) && c < CONTEXTS
    ensures IsBest(s, c, Best(s, c))
    ensures Best(s, c) == 0 <==> forall i :: !Eligible(s, c, i)
  {
    ScanIsBest(s, c, 1, 0, 0);
  }

  /* ---- operations ---- */

  function Refreshed(s: State, c: nat): State
    requires Shaped(s) && c < CONTEXTS
  {
    s.(best := s.best[c := Best(s, c)])
  }

  function RefreshedAll(s: State): State
    requires Shaped(s)
  {
    Refreshed(Refreshed(s, 0), 1)
  }

  function SetPending(s: State, i: nat, on: bool): State
    requires Shaped(s)
  {
    if i == 0 || i > SOURCES then s
    else
      var s' := s.(pending := s.pending[i := on]);
      if on != s.pending[i] then RefreshedAll(s') else s'
  }

  function SetLevel(s: State, i: nat, asserted: bool): State
    requires Shaped(s)
  {
    if i == 0 || i > SOURCES then s
    else
      var s' := s.(levels := s.levels[i := asserted]);
      if asserted && !s.levels[i] && s.claimed[0] != i && s.claimed[1] != i then SetPending(s', i, true) else s'
  }

  function Claim(s: State, c: nat): (State, nat)
    requires Shaped(s) && c < CONTEXTS
  {
    var b := s.best[c];
    if b == 0 then (s, 0)
    else
      var s' := SetPending(s, b, false);
      (s'.(claimed := s'.claimed[c := b]), b)
  }

  function Complete(s: State, c: nat, i: nat): State
    requires Shaped(s) && c < CONTEXTS
  {
    if i == 0 || i > SOURCES || s.claimed[c] != i then s
    else
      var s' := s.(claimed := s.claimed[c := 0]);
      if s.levels[i] then SetPending(s', i, true) else s'
  }

  /* ---- the register window ---- */

  datatype Register =
    | Priority(source: nat) | PendingWord(word: nat) | Enable(context: nat, word: nat)
    | Threshold(context: nat) | ClaimComplete(context: nat) | Hole

  function ContextRegister(c: nat, offset: nat): (r: Register)
    ensures r.Enable? ==> r.context == c && r.word < 2
    ensures r.Threshold? || r.ClaimComplete? ==> r.context == c
    ensures !r.Priority? && !r.PendingWord?
  {
    var enable, context := 0x2000 + c * 0x80, 0x20_0000 + c * 0x1000;
    if enable <= offset < enable + 8 then Enable(c, (offset - enable) / 4)
    else if offset == context then Threshold(c)
    else if offset == context + 4 then ClaimComplete(c)
    else Hole
  }

  /** The register at a word-aligned offset. */
  function RegisterAt(offset: nat): (r: Register)
    ensures r.Priority? ==> r.source <= SOURCES
    ensures r.PendingWord? || r.Enable? ==> r.word < 2
    ensures r.Enable? || r.Threshold? || r.ClaimComplete? ==> r.context < CONTEXTS
  {
    if offset < (SOURCES + 1) * 4 then Priority(offset / 4)
    else if 0x1000 <= offset < 0x1008 then PendingWord((offset - 0x1000) / 4)
    else if ContextRegister(0, offset) != Hole then ContextRegister(0, offset)
    else ContextRegister(1, offset)
  }

  function WordOf(bits: seq<bool>, w: nat): nat
    requires |bits| == 64 && w < 2
  {
    Bits.Value(bits[32 * w..32 * w + 32])
  }

  function WithWord(bits: seq<bool>, w: nat, value: nat): (r: seq<bool>)
    requires |bits| == 64 && w < 2
    ensures |r| == 64
  {
    bits[..32 * w] + Bits.Of(value, 32) + bits[32 * w + 32..]
  }

  predicate Accepted(offset: nat, width: nat) { width == 4 && offset % 4 == 0 }

  /** Plic::read; reading a claim register claims. None is an unsupported access. */
  function Read(s: State, offset: nat, width: nat): (State, Option<nat>)
    requires Shaped(s)
  {
    if !Accepted(offset, width) then (s, None)
    else
      match RegisterAt(offset)
      case Priority(i) => (s, Some(s.priorities[i]))
      case PendingWord(w) => (s, Some(WordOf(s.pending, w)))
      case Enable(c, w) => (s, Some(WordOf(s.enables[c], w)))
      case Threshold(c) => (s, Some(s.thresholds[c]))
      case ClaimComplete(c) => (Claim(s, c).0, Some(Claim(s, c).1))
      case Hole => (s, Some(0))
  }

  function Write(s: State, offset: nat, width: nat, value: nat): State
    requires Shaped(s)
  {
    if !Accepted(offset, width) then s
    else
      match RegisterAt(offset)
      case Priority(i) => if i == 0 then s else RefreshedAll(s.(priorities := s.priorities[i := value % 8]))
      case Enable(c, w) => Refreshed(s.(enables := s.enables[c := WithWord(s.enables[c], w, value)[0 := false]]), c)
      case Threshold(c) => Refreshed(s.(thresholds := s.thresholds[c := value % 8]), c)
      case ClaimComplete(c) => Complete(s, c, value % 0x1_0000_0000)
      case _ => s
  }

  datatype Op = Level(source: nat, asserted: bool) | ReadOp(offset: nat, width: nat) | WriteOp(offset: nat,
      width: nat, value: nat)

  function Apply(s: State, op: Op): State
    requires Shaped(s)
  {
    match op
    case Level(i, asserted) => SetLevel(s, i, asserted)
    case ReadOp(offset, width) => Read(s, offset, width).0
    case WriteOp(offset, width, value) => Write(s, offset, width, value)
  }

  /* ---- the invariant of every reachable state ---- */

  /** The cached best sources are what the scan would find. */
  ghost predicate CacheAgrees(s: State)
    requires Shaped(s)
  {
    s.best[0] == Best(s, 0) && s.best[1] == Best(s, 1)
  }

  /** A source is in service in at most one context, and not pending while it is. */
  predicate Gateway(s: State)
    requires Shaped(s)
  {
    s.claimed[0] <= SOURCES && s.claimed[1] <= SOURCES &&
    (s.claimed[0] == s.claimed[1] ==> s.claimed[0] == 0) && !s.pending[s.claimed[0]] && !s.pending[s.claimed[1]] &&
      !s.pending[0]
  }

  ghost predicate Inv(s: State) { Shaped(s) && CacheAgrees(s) && Gateway(s) }

  /** The scan looks at nothing but pending bits, enables, priorities and thresholds. */
  lemma {:induction false} ScanReads(s: State, t: State, c: nat, i: nat, best: nat, priority: nat)
    requires Shaped(s) && Shaped(t) && c < CONTEXTS && 1 <= i <= SOURCES + 1
    requires s.pending == t.pending && s.priorities == t.priorities && s.enables[c] == t.enables[c] &&
        s.thresholds[c] == t.thresholds[c]
    ensures Scan(s, c, i, best, priority) == Scan(t, c, i, best, priority)
    decreases SOURCES + 1 - i
  {
    if i <= SOURCES {
      ScanReads(s, t, c, i + 1, i, s.priorities[i]);
      ScanReads(s, t, c, i + 1, best, priority);
    }
  }

  lemma RefreshAgrees(s: State)
    requires Shaped(s)
    ensures CacheAgrees(RefreshedAll(s)) && RefreshedAll(s) == s.(best := RefreshedAll(s).best) &&
        Shaped(RefreshedAll(s))
    ensures s.best[1] == Best(s, 1) ==> CacheAgrees(Refreshed(s, 0))
    ensures s.best[0] == Best(s, 0) ==> CacheAgrees(Refreshed(s, 1))
  {
    hide Scan;
    var t0, t1 := Refreshed(s, 0), Refreshed(s, 1);
    var t := Refreshed(t0, 1);
    forall c: nat | c < CONTEXTS ensures Best(t0, c) == Best(s, c) && Best(t1, c) == Best(s, c) &&
        Best(t, c) == Best(s, c) {
      ScanReads(t0, s, c, 1, 0, 0);
      ScanReads(t1, s, c, 1, 0, 0);
      ScanReads(t, s, c, 1, 0, 0);
    }
  }

  /** States that the scan cannot tell apart keep the cache agreeing. */
  lemma SameScan(s: State, t: State)
    requires Shaped(s) && Shaped(t) && CacheAgrees(s)
    requires t.pending == s.pending && t.priorities == s.priorities && t.enables == s.enables &&
        t.thresholds == s.thresholds && t.best == s.best
    ensures CacheAgrees(t)
  {
    ScanReads(s, t, 0, 1, 0, 0);
    ScanReads(s, t, 1, 1, 0, 0);
  }

  lemma PendingAgrees(s: State, i: nat, on: bool)
    requires Shaped(s) && CacheAgrees(s)
    ensures Shaped(SetPending(s, i, on)) && CacheAgrees(SetPending(s, i, on))
    ensures SetPending(s, i, on) == s.(pending := if 1 <= i <= SOURCES then s.pending[i := on] else s.pending,
        best := SetPending(s, i, on).best)
  {
    hide Best; hide Refreshed;
    if 1 <= i <= SOURCES {
      RefreshAgrees(s.(pending := s.pending[i := on]));
      if on == s.pending[i] { assert s.pending[i := on] == s.pending; }
    }
  }

  lemma LevelKeeps(s: State, i: nat, asserted: bool)
    requires Inv(s)
    ensures Inv(SetLevel(s, i, asserted))
  {
    hide Best; hide SetPending;
    if 1 <= i <= SOURCES {
      var s' := s.(levels := s.levels[i := asserted]);
      SameScan(s, s');
      PendingAgrees(s', i, true);
    }
  }

  lemma ClaimKeeps(s: State, c: nat)
    requires Inv(s) && c < CONTEXTS
    ensures Inv(Claim(s, c).0)
    ensures Claim(s, c).1 != 0 ==> Eligible(s, c, Claim(s, c).1)
  {
    hide Scan; hide SetPending;
    BestIsBest(s, c);
    var b := s.best[c];
    if b != 0 {
      PendingAgrees(s, b, false);
      var s' := SetPending(s, b, false);
      SameScan(s', s'.(claimed := s'.claimed[c := b]));
    }
  }

  lemma CompleteKeeps(s: State, c: nat, i: nat)
    requires Inv(s) && c < CONTEXTS
    ensures Inv(Complete(s, c, i))
  {
    hide Best; hide SetPending;
    if 1 <= i <= SOURCES && s.claimed[c] == i {
      var s' := s.(claimed := s.claimed[c := 0]);
      SameScan(s, s');
      PendingAgrees(s', i, true);
    }
  }

  lemma WriteKeeps(s: State, offset: nat, width: nat, value: nat)
    requires Inv(s)
    ensures Inv(Write(s, offset, width, value))
  {
    hide Scan; hide RegisterAt; hide WithWord; hide Complete; hide RefreshedAll;
    match RegisterAt(offset)
    case Priority(i) => RefreshAgrees(s.(priorities := s.priorities[i := value % 8]));
    case Enable(c, w) =>
      var t := s.(enables := s.enables[c := WithWord(s.enables[c], w, value)[0 := false]]);
      ScanReads(s, t, 1 - c, 1, 0, 0);
      RefreshAgrees(t);
    case Threshold(c) =>
      var t := s.(thresholds := s.thresholds[c := value % 8]);
      ScanReads(s, t, 1 - c, 1, 0, 0);
      RefreshAgrees(t);
    case ClaimComplete(c) => CompleteKeeps(s, c, value % 0x1_0000_0000);
    case _ =>
  }

  lemma ApplyKeeps(s: State, op: Op)
    requires Inv(s)
    ensures Inv(Apply(s, op))
  {
    hide Inv; hide RegisterAt; hide Claim;
    match op
    case Level(i, asserted) => InvShaped(s); LevelKeeps(s, i, asserted);
    case ReadOp(offset, _) =>
      InvShaped(s);
      var r := RegisterAt(offset);
      if r.ClaimComplete? { ClaimKeeps(s, r.context); }
    case WriteOp(offset, width, value) => InvShaped(s); WriteKeeps(s, offset, width, value);
  }

  lemma InvShaped(s: State)
    requires Inv(s)
    ensures Shaped(s)
  {}

  lemma InitialInv()
    ensures Inv(Initial())
  {
    BestIsBest(Initial(), 0);
    BestIsBest(Initial(), 1);
  }

  /** The state after any sequence of level changes and register accesses. */
  ghost predicate Reaches(s: State, ops: seq<Op>, t: State)
    decreases |ops|
  {
    Shaped(s) && if ops == [] then t == s else Reaches(Apply(s, ops[0]), ops[1..], t)
  }

  lemma {:induction false} ReachableInv(s: State, ops: seq<Op>, t: State)
    requires Inv(s) && Reaches(s, ops, t)
    ensures Inv(t)
    decreases |ops|
  {
    hide Inv; hide Apply;
    if ops != [] {
      InvShaped(s);
      ApplyKeeps(s, ops[0]);
      ReachableInv(Apply(s, ops[0]), ops[1..], t);
    }
  }

  /** In every state reachable from power-on the external interrupt line of a context is raised
      exactly when some source is pending and enabled above its threshold. */
  lemma LineIsEligible(ops: seq<Op>, s: State, c: nat)
    requires Reaches(Initial(), ops, s) && c < CONTEXTS
    ensures Inv(s) && (s.best[c] != 0 <==> exists i :: Eligible(s, c, i)) && IsBest(s, c, s.best[c])
  {
    hide Initial; hide Reaches; hide Scan;
    InitialInv();
    ReachableInv(Initial(), ops, s);
    BestIsBest(s, c);
    if s.best[c] != 0 { assert Eligible(s, c, s.best[c]); }
  }

  /* ---- no level interrupt is lost, unless a claim overwrites one in service ---- */

  predicate Lost(s: State, i: nat)
    requires Shaped(s)
  {
    1 <= i <= SOURCES && s.levels[i] && !s.pending[i] && s.claimed[0] != i && s.claimed[1] != i
  }

  ghost predicate NoneLost(s: State)
    requires Shaped(s)
  {
    forall i :: !Lost(s, i)
  }

  /** The operation claims another source in a context that still has an asserted one in service. */
  predicate Overwrites(s: State, op: Op)
    requires Shaped(s)
  {
    op.ReadOp? && Accepted(op.offset, op.width) && RegisterAt(op.offset).ClaimComplete? &&
    var c := RegisterAt(op.offset).context;
    s.best[c] != 0 && 1 <= s.claimed[c] <= SOURCES && s.levels[s.claimed[c]]
  }

  lemma ClaimLoses(s: State, c: nat)
    requires Inv(s) && NoneLost(s) && c < CONTEXTS
    ensures Shaped(Claim(s, c).0)
    ensures NoneLost(Claim(s, c).0) <==> !(s.best[c] != 0 && s.claimed[c] != 0 && s.levels[s.claimed[c]])
  {
    hide Scan; hide SetPending;
    BestIsBest(s, c);
    var b := s.best[c];
    if b != 0 {
      PendingAgrees(s, b, false);
      var s' := Claim(s, c).0;
      var t := s.claimed[c];
      if t != 0 && s.levels[t] { assert Lost(s', t); }
      forall i | i != t ensures !Lost(s', i) { assert !Lost(s, i); }
    }
  }

  lemma LevelLosesNone(s: State, i: nat, asserted: bool)
    requires Inv(s) && NoneLost(s)
    ensures Shaped(SetLevel(s, i, asserted)) && NoneLost(SetLevel(s, i, asserted))
  {
    hide Best; hide SetPending;
    if 1 <= i <= SOURCES {
      var s' := s.(levels := s.levels[i := asserted]);
      SameScan(s, s');
      PendingAgrees(s', i, true);
      var t := SetLevel(s, i, asserted);
      forall j ensures !Lost(t, j) { assert !Lost(s, j); }
    }
  }

  lemma CompleteLosesNone(s: State, c: nat, i: nat)
    requires Inv(s) && NoneLost(s) && c < CONTEXTS
    ensures Shaped(Complete(s, c, i)) && NoneLost(Complete(s, c, i))
  {
    hide Best; hide SetPending;
    if 1 <= i <= SOURCES && s.claimed[c] == i {
      var s' := s.(claimed := s.claimed[c := 0]);
      SameScan(s, s');
      PendingAgrees(s', i, true);
      var t := Complete(s, c, i);
      forall j ensures !Lost(t, j) { assert !Lost(s, j); }
    }
  }

  lemma WriteLosesNone(s: State, offset: nat, width: nat, value: nat)
    requires Inv(s) && NoneLost(s)
    ensures Shaped(Write(s, offset, width, value)) && NoneLost(Write(s, offset, width, value))
  {
    hide Best; hide RegisterAt; hide WithWord; hide Complete;
    var t := Write(s, offset, width, value);
    var r := RegisterAt(offset);
    if r.ClaimComplete? { CompleteLosesNone(s, r.context, value % 0x1_0000_0000); }
    else {
      forall j ensures !Lost(t, j) { assert !Lost(s, j); }
    }
  }

  /** An asserted source is always pending or in service after an operation, exactly when the
      operation is not a claim over an asserted source that is still in service. */
  lemma LosesExactlyByOverwriting(s: State, op: Op)
    requires Inv(s) && NoneLost(s)
    ensures Shaped(Apply(s, op)) && (NoneLost(Apply(s, op)) <==> !Overwrites(s, op))
  {
    hide RegisterAt; hide Claim; hide NoneLost; hide Best;
    match op
    case Level(i, asserted) => LevelLosesNone(s, i, asserted);
    case ReadOp(offset, _) =>
      var r := RegisterAt(offset);
      if r.ClaimComplete? { ClaimLoses(s, r.context); }
    case WriteOp(offset, width, value) => WriteLosesNone(s, offset, width, value);
  }

  /** No operation of the run claims over an asserted source in service: enough for that is that
      each context completes before it claims again. */
  ghost predicate Polite(s: State, ops: seq<Op>)
    decreases |ops|
  {
    Shaped(s) && (ops != [] ==> !Overwrites(s, ops[0]) && Polite(Apply(s, ops[0]), ops[1..]))
  }

  /** Over every polite run no level interrupt is lost. */
  lemma {:induction false} PoliteLosesNone(s: State, ops: seq<Op>, t: State)
    requires Inv(s) && NoneLost(s) && Polite(s, ops) && Reaches(s, ops, t)
    ensures Inv(t) && NoneLost(t)
    decreases |ops|
  {
    hide Inv; hide Apply; hide NoneLost; hide Overwrites;
    if ops != [] {
      InvShaped(s);
      ApplyKeeps(s, ops[0]);
      LosesExactlyByOverwriting(s, ops[0]);
      PoliteLosesNone(Apply(s, ops[0]), ops[1..], t);
    }
  }

  lemma LostByLevel(s: State, j: nat, asserted: bool, i: nat)
    requires Inv(s) && Lost(s, i) && (j != i || asserted)
    ensures Shaped(SetLevel(s, j, asserted)) && Lost(SetLevel(s, j, asserted), i)
  {
    hide Best; hide SetPending;
    if 1 <= j <= SOURCES {
      var s' := s.(levels := s.levels[j := asserted]);
      SameScan(s, s');
      PendingAgrees(s', j, true);
    }
  }

  lemma LostByClaim(s: State, c: nat, i: nat)
    requires Inv(s) && Lost(s, i) && c < CONTEXTS
    ensures Shaped(Claim(s, c).0) && Lost(Claim(s, c).0, i)
  {
    hide Scan; hide SetPending;
    BestIsBest(s, c);
    PendingAgrees(s, s.best[c], false);
  }

  lemma LostByComplete(s: State, c: nat, j: nat, i: nat)
    requires Inv(s) && Lost(s, i) && c < CONTEXTS
    ensures Shaped(Complete(s, c, j)) && Lost(Complete(s, c, j), i)
  {
    hide Best; hide SetPending;
    if 1 <= j <= SOURCES && s.claimed[c] == j {
      var s' := s.(claimed := s.claimed[c := 0]);
      SameScan(s, s');
      PendingAgrees(s', j, true);
    }
  }

  /** A lost source stays lost, whatever is claimed, completed or configured, until its line falls. */
  lemma LostUntilReasserted(s: State, op: Op, i: nat)
    requires Inv(s) && Lost(s, i) && op != Level(i, false)
    ensures Shaped(Apply(s, op)) && Lost(Apply(s, op), i)
  {
    hide Best; hide RegisterAt; hide WithWord; hide SetLevel; hide Claim; hide Complete;
    match op
    case Level(j, asserted) => LostByLevel(s, j, asserted, i);
    case ReadOp(offset, _) =>
      var r := RegisterAt(offset);
      if r.ClaimComplete? { LostByClaim(s, r.context, i); }
    case WriteOp(offset, _, value) =>
      var r := RegisterAt(offset);
      if r.ClaimComplete? { LostByComplete(s, r.context, value % 0x1_0000_0000, i); }
  }

  /* ---- the loss happens ---- */

  /** States of sources 1 and 2 alone: their priorities, whether context 0 enables them, the one that
      is pending, the one in service, their lines. */
  function Two(p1: bool, p2: bool, on: bool, pending: nat, served: nat, up1: bool, up2: bool, best: nat): State {
    var off := seq(64, _ => false);
    State(seq(SOURCES + 1, i => if (i == 1 && p1) || (i == 2 && p2) then 1 else 0),
      seq(64, i => i == pending && i != 0),
          [if on then seq(64, i => i == 1 || i == 2) else off, off], [0, 0], [served, 0],
          seq(SOURCES + 1, i => (i == 1 && up1) || (i == 2 && up2)), [best, 0])
  }

  lemma BestOfTwo(p1: bool, p2: bool, on: bool, pending: nat, served: nat, up1: bool, up2: bool, best: nat)
    requires pending <= 2
    ensures var s := Two(p1, p2, on, pending, served, up1, up2, best);
            Shaped(s) && Best(s, 1) == 0 && Best(s, 0) == if on &&
              ((pending == 1 && p1) || (pending == 2 && p2)) then pending else 0
  {
    hide Best;
    var s := Two(p1, p2, on, pending, served, up1, up2, best);
    BestIsBest(s, 0);
    BestIsBest(s, 1);
    if on && ((pending == 1 && p1) || (pending == 2 && p2)) { assert Eligible(s, 0, pending); }
  }

  /** The cache after a refresh, whatever it was. */
  lemma RefreshTwo(p1: bool, p2: bool, on: bool, pending: nat, served: nat, up1: bool, up2: bool, was: nat, best: nat)
    requires pending <= 2 && best == if on && ((pending == 1 && p1) || (pending == 2 && p2)) then pending else 0
    ensures var s, t := Two(p1, p2, on, pending, served, up1, up2, was),
        Two(p1, p2, on, pending, served, up1, up2, best);
            Shaped(s) && RefreshedAll(s) == t && Refreshed(s, 0) == t
  {
    hide Best;
    BestOfTwo(p1, p2, on, pending, served, up1, up2, was);
    BestOfTwo(p1, p2, on, pending, served, up1, up2, best);
    assert [was, 0][0 := best] == [best, 0] && [best, 0][1 := 0] == [best, 0];
  }

  /** Both sources get priority 1 and are enabled; source 1 rises and is claimed; source 2 rises. */
  const ClaimThenRaise: seq<Op> := [WriteOp(4, 4, 1), WriteOp(8, 4, 1), WriteOp(0x2000, 4, 6), Level(1, true),
      ReadOp(0x20_0004, 4), Level(2, true)]

  function OneInService(): State { Two(true, true, true, 2, 1, true, true, 2) }

  lemma EnableBits()
    ensures WithWord(seq(64, _ => false), 0, 6)[0 := false] == seq(64, i => i == 1 || i == 2)
  {
    SixBits();
    var off := seq(64, _ => false);
    var w := WithWord(off, 0, 6)[0 := false];
    forall k: nat | k < 64 ensures w[k] == (k == 1 || k == 2) {
      if k < 32 { assert w[k] == if k == 0 then false else Bits.Of(6, 32)[k]; } else { assert w[k] == off[k]; }
    }
  }

  lemma SixBits()
    ensures forall k: nat :: k < 32 ==> Bits.Of(6, 32)[k] == (k == 1 || k == 2)
  {
    hide Bits.Of;
    Bits.OfStep(6, 32);
    Bits.OfStep(3, 31);
    Bits.OfStep(1, 30);
    forall i: nat | i < 29 ensures !Bits.Of(0, 29)[i] { Bits.OfZero(29, i); }
  }

  lemma PowerOnIsTwo()
    ensures Initial() == Two(false, false, false, 0, 0, false, false, 0)
  {
    var s, t := Initial(), Two(false, false, false, 0, 0, false, false, 0);
    assert s.priorities == t.priorities && s.pending == t.pending && s.levels == t.levels;
  }

  lemma PriorityStep(p1: bool, i: nat)
    requires i == if p1 then 2 else 1
    ensures var s := Two(p1, false, false, 0, 0, false, false, 0);
            Shaped(s) && Apply(s, WriteOp(4 * i, 4, 1)) == Two(true, p1, false, 0, 0, false, false, 0)
  {
    hide Best; hide RefreshedAll;
    var s, t := Two(p1, false, false, 0, 0, false, false, 0), Two(true, p1, false, 0, 0, false, false, 0);
    RefreshTwo(true, p1, false, 0, 0, false, false, 0, 0);
    assert s.priorities[i := 1] == t.priorities;
    assert RegisterAt(4 * i) == Priority(i);
  }

  lemma EnableStep()
    ensures var s := Two(true, true, false, 0, 0, false, false, 0);
            Shaped(s) && Apply(s, WriteOp(0x2000, 4, 6)) == Two(true, true, true, 0, 0, false, false, 0)
  {
    hide Best; hide WithWord; hide Refreshed;
    var s, t := Two(true, true, false, 0, 0, false, false, 0), Two(true, true, true, 0, 0, false, false, 0);
    EnableBits();
    RefreshTwo(true, true, true, 0, 0, false, false, 0, 0);
    assert s.enables[0 := WithWord(s.enables[0], 0, 6)[0 := false]] == t.enables;
    assert RegisterAt(0x2000) == Enable(0, 0);
  }

  lemma RaiseStep(served: nat, i: nat)
    requires served <= 1 && i == served + 1
    ensures var s := Two(true, true, true, 0, served, served == 1, false, 0);
            Shaped(s) && Apply(s, Level(i, true)) == Two(true, true, true, i, served, true, served == 1, i)
  {
    hide Best; hide RefreshedAll;
    var s, t := Two(true, true, true, 0, served, served == 1, false, 0),
        Two(true, true, true, i, served, true, served == 1, 0);
    RefreshTwo(true, true, true, i, served, true, served == 1, 0, i);
    assert s.levels[i := true] == t.levels && s.pending[i := true] == t.pending;
  }

  lemma ClaimStep()
    ensures var s := Two(true, true, true, 1, 0, true, false, 1);
            Shaped(s) && Apply(s, ReadOp(0x20_0004, 4)) == Two(true, true, true, 0, 1, true, false, 0)
  {
    hide Best; hide RefreshedAll;
    var s, t := Two(true, true, true, 1, 0, true, false, 1), Two(true, true, true, 0, 0, true, false, 1);
    RefreshTwo(true, true, true, 0, 0, true, false, 1, 0);
    assert s.pending[1 := false] == t.pending;
    assert RegisterAt(0x20_0004) == ClaimComplete(0);
    assert [0, 0][0 := 1] == [1, 0];
  }

  /** From power-on these six operations lead to a state in which claiming again, before source 1 is
      completed, loses the interrupt of source 1. */
  lemma SecondClaimLoses()
    ensures Reaches(Initial(), ClaimThenRaise, OneInService())
    ensures Inv(OneInService()) && NoneLost(OneInService()) && Claim(OneInService(), 0).1 == 2
    ensures !NoneLost(Claim(OneInService(), 0).0)
  {
    hide Best; hide Apply; hide Two; hide Initial;
    PowerOnIsTwo();
    PriorityStep(false, 1);
    PriorityStep(true, 2);
    EnableStep();
    RaiseStep(0, 1);
    ClaimStep();
    RaiseStep(1, 2);
    InitialInv();
    ServiceLosesNone();
    LeadsThere(Initial(), Two(true, false, false, 0, 0, false, false, 0), Two(true, true, false, 0, 0, false, false, 0),
               Two(true, true, true, 0, 0, false, false, 0), Two(true, true, true, 1, 0, true, false, 1),
               Two(true, true, true, 0, 1, true, false, 0), OneInService());
    ReachableInv(Initial(), ClaimThenRaise, OneInService());
    ClaimLoses(OneInService(), 0);
  }

  lemma LeadsThere(s0: State, s1: State, s2: State, s3: State, s4: State, s5: State, s6: State)
    requires Shaped(s0) && Shaped(s1) && Shaped(s2) && Shaped(s3) && Shaped(s4) && Shaped(s5) && Shaped(s6)
    requires Apply(s0, ClaimThenRaise[0]) == s1 && Apply(s1, ClaimThenRaise[1]) == s2 &&
        Apply(s2, ClaimThenRaise[2]) == s3
    requires Apply(s3, ClaimThenRaise[3]) == s4 && Apply(s4, ClaimThenRaise[4]) == s5 &&
        Apply(s5, ClaimThenRaise[5]) == s6
    ensures Reaches(s0, ClaimThenRaise, s6)
  {
    hide Apply; hide Shaped;
    var ops := ClaimThenRaise;
    assert Reaches(s6, ops[6..], s6);
    assert ops[5..][1..] == ops[6..] && Reaches(s5, ops[5..], s6);
    assert ops[4..][1..] == ops[5..] && Reaches(s4, ops[4..], s6);
    assert ops[3..][1..] == ops[4..] && Reaches(s3, ops[3..], s6);
    assert ops[2..][1..] == ops[3..] && Reaches(s2, ops[2..], s6);
    assert ops[1..][1..] == ops[2..] && Reaches(s1, ops[1..], s6);
  }

  lemma ServiceLosesNone()
    ensures Shaped(OneInService()) && NoneLost(OneInService()) && OneInService().best[0] == 2 &&
        OneInService().claimed[0] == 1
    ensures OneInService().levels[1]
  {}

  /* ---- the device, in place ---- */

  class Device {
    var priorities: seq<nat>
    var pending: seq<bool>
    var enables: seq<seq<bool>>
    var thresholds: seq<nat>
    var claimed: seq<nat>
    var levels: seq<bool>
    var best: seq<nat>

    ghost function View(): State reads this {
      State(priorities, pending, enables, thresholds, claimed, levels, best)
    }

    ghost predicate Valid() reads this { Inv(View()) }

    constructor ()
      ensures Valid() && View() == Initial()
    {
      var off := seq(64, _ => false);
      priorities, thresholds, claimed := seq(SOURCES + 1, _ => 0), [0, 0], [0, 0];
      pending, enables, levels, best := off, [off, off], seq(SOURCES + 1, _ => false), [0, 0];
      new;
      assert View() == Initial();
      InitialInv();
    }

    method ComputeBestPending(c: nat) returns (r: nat)
      requires Shaped(View()) && c < CONTEXTS
      ensures r == Best(View(), c) && IsBest(View(), c, r)
    {
      r := 0;
      var bestPriority := 0;
      for i := 1 to SOURCES + 1
        invariant Scan(View(), c, i, r, bestPriority) == Best(View(), c)
      {
        if pending[i] && enables[c][i] && priorities[i] > thresholds[c] {
          if priorities[i] > bestPriority || (priorities[i] == bestPriority && (r == 0 || i < r)) {
            r, bestPriority := i, priorities[i];
          }
        }
      }
      BestIsBest(View(), c);
    }

    method RefreshPending(c: nat)
      requires Shaped(View()) && c < CONTEXTS
      modifies this`best
      ensures View() == Refreshed(old(View()), c)
    {
      var b := ComputeBestPending(c);
      best := best[c := b];
    }

    method RefreshAllPending()
      requires Shaped(View())
      modifies this`best
      ensures View() == RefreshedAll(old(View()))
    {
      hide Best;
      RefreshPending(0);
      RefreshPending(1);
    }

    method UpdatePending(source: nat, on: bool)
      requires Shaped(View())
      modifies this`pending, this`best
      ensures View() == SetPending(old(View()), source, on)
    {
      hide Best;
      if source == 0 || source > SOURCES { return; }
      var was := pending[source];
      pending := pending[source := on];
      if on != was { RefreshAllPending(); }
    }

    method SetSourceLevel(source: nat, asserted: bool)
      requires Valid()
      modifies this
      ensures Valid() && View() == SetLevel(old(View()), source, asserted)
    {
      hide Best; hide SetPending; hide CacheAgrees; hide Gateway;
      LevelKeeps(View(), source, asserted);
      if source == 0 || source > SOURCES { return; }
      var wasAsserted := levels[source];
      levels := levels[source := asserted];
      if asserted && !wasAsserted && claimed[0] != source && claimed[1] != source {
        UpdatePending(source, true);
      }
    }

    method ClaimSource(c: nat) returns (source: nat)
      requires Valid() && c < CONTEXTS
      modifies this
      ensures Valid() && (View(), source) == Claim(old(View()), c)
    {
      hide Best; hide SetPending; hide CacheAgrees; hide Gateway;
      ClaimKeeps(View(), c);
      source := best[c];
      if source != 0 {
        UpdatePending(source, false);
        claimed := claimed[c := source];
      }
    }

    method CompleteSource(c: nat, source: nat)
      requires Valid() && c < CONTEXTS
      modifies this
      ensures Valid() && View() == Complete(old(View()), c, source)
    {
      hide Best; hide SetPending; hide CacheAgrees; hide Gateway;
      CompleteKeeps(View(), c, source);
      if source == 0 || source > SOURCES || claimed[c] != source { return; }
      claimed := claimed[c := 0];
      if levels[source] { UpdatePending(source, true); }
    }

    method ReadRegister(offset: nat, width: nat) returns (value: Option<nat>)
      requires Valid()
      modifies this
      ensures Valid() && (View(), value) == Read(old(View()), offset, width)
    {
      hide Best; hide Inv; hide Claim; hide WordOf;
      InvShaped(View());
      if width != 4 || offset % 4 != 0 { return None; }
      if offset < (SOURCES + 1) * 4 { return Some(priorities[offset / 4]); }
      if 0x1000 <= offset < 0x1008 { return Some(WordOf(pending, (offset - 0x1000) / 4)); }
      for c := 0 to CONTEXTS
        invariant View() == old(View()) && Valid() && Shaped(View())
        invariant forall k: nat :: k < c ==> ContextRegister(k, offset) == Hole
      {
        var enable, context := 0x2000 + c * 0x80, 0x20_0000 + c * 0x1000;
        if enable <= offset < enable + 8 { return Some(WordOf(enables[c], (offset - enable) / 4)); }
        if offset == context { return Some(thresholds[c]); }
        if offset == context + 4 {
          var source := ClaimSource(c);
          return Some(source);
        }
      }
      return Some(0);
    }

    method WriteRegister(offset: nat, width: nat, value: nat)
      requires Valid()
      modifies this
      ensures Valid() && View() == Write(old(View()), offset, width, value)
    {
      hide Best; hide Inv; hide Complete; hide WithWord; hide Refreshed;
      WriteKeeps(View(), offset, width, value);
      InvShaped(View());
      if width != 4 || offset % 4 != 0 { return; }
      if offset < (SOURCES + 1) * 4 {
        if offset / 4 != 0 {
          priorities := priorities[offset / 4 := value % 8];
          RefreshAllPending();
        }
        return;
      }
      for c := 0 to CONTEXTS
        invariant View() == old(View()) && Valid() && Shaped(View())
        invariant forall k: nat :: k < c ==> ContextRegister(k, offset) == Hole
      {
        var enable, context := 0x2000 + c * 0x80, 0x20_0000 + c * 0x1000;
        if enable <= offset < enable + 8 {
          enables := enables[c := WithWord(enables[c], (offset - enable) / 4, value)[0 := false]];
          RefreshPending(c);
          return;
        }
        if offset == context {
          thresholds := thresholds[c := value % 8];
          RefreshPending(c);
          return;
        }
        if offset == context + 4 {
          CompleteSource(c, value % 0x1_0000_0000);
          return;
        }
      }
    }
  }
}
