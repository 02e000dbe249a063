/** Block allocation of IDs by the C# client: any number of Generate and ResetCache calls
    and of thread-pool loads, interleaved at the accesses to shared variables.  Accesses that
    only the holder of the latch makes may be one step: no other call sees them in between. */
module IdAllocation {
  import opened Options

  /** Constructor arguments, as the constructor accepts them. */
  datatype Params = Params(blockSize: int, threshold: int)

  ghost predicate ValidParams(k: Params) {
    1 <= k.blockSize && 0 <= k.threshold <= k.blockSize
  }

  datatype Outcome = Return(id: int) | Throw | Retry

  /** Where a call stands.  `id` and `left` are the locals nextId and remaining. */
  datatype Pc =
    // Generate
    | Spin | Take | Check(id: int)
    | ResetEvent(id: int, left: int) | MarkLoading(id: int, left: int)
    | ClearError(id: int, left: int) | Queue(id: int, left: int) | OutOfIds(id: int, left: int)
    | Unlatch | Wait | Respin | TestError | Leave(out: Outcome) | Finished(out: Outcome)
    // AsyncGenerateBlock and ResetLoading
    | LoadCall | LoadSpin(block: Option<int>) | LoadNext(start: int) | LoadEnd(start: int)
    | LoadError(failed: bool) | LoadFlag | LoadSignal | LoadRelease
    // ResetCache
    | ResetWait | ResetSpin | ResetTest | ResetNext | ResetEnd | ResetRelease(again: bool)

  /** What a place means: the latch is held; a load is being started or is outstanding,
      from the reset of the event to its signal; the flag _loadingBlock is set. */
  datatype Phase = Phase(holds: bool, loads: bool, flagged: bool)

  function PhaseOf(pc: Pc): Phase {
    match pc
    case Spin | Wait | Respin | Finished(_) | ResetWait | ResetSpin => Phase(false, false, false)
    case MarkLoading(_, _) => Phase(true, true, false)
    case ClearError(_, _) | Queue(_, _) => Phase(true, true, true)
    case LoadCall | LoadSpin(_) => Phase(false, true, true)
    case LoadNext(_) | LoadEnd(_) | LoadError(_) | LoadFlag => Phase(true, true, true)
    case LoadSignal => Phase(true, true, false)
    case _ => Phase(true, false, false)
  }

  predicate Holds(pc: Pc) { PhaseOf(pc).holds }
  predicate Loads(pc: Pc) { PhaseOf(pc).loads }
  predicate Flagged(pc: Pc) { PhaseOf(pc).flagged }

  /** What a call waits for before its next plain step. */
  datatype Guard = Nothing | FreeLatch | Signalled | Never

  function GuardOf(pc: Pc): Guard {
    match pc
    case Spin | Respin | LoadSpin(_) | ResetSpin => FreeLatch
    case Wait | ResetWait => Signalled
    case LoadCall | Queue(_, _) | Finished(_) => Never
    case _ => Nothing
  }

  /** Shared variables, the stored next value of the generator table, the histories, and
      auxiliary fields: the latch holder, the call that loads, the start of the block in the
      window, and the block each returned ID came from. */
  datatype State = State(
    k: Params, latch: int, next: int, end: int, loading: bool, signalled: bool, failed: bool,
    stored: int, granted: set<int>, returned: seq<int>, wasted: seq<int>,
    calls: map<nat, Pc>, owner: Option<nat>, loader: Option<nat>, base: int, homes: seq<int>)

  function Init(k: Params, stored: int): State {
    State(k, 0, 0, 0, false, true, false, stored, {}, [], [], map[], None, None, 0, [])
  }

  /** `Grant` is a callback that returned a block, after other clients took `skip` IDs. */
  datatype Action =
    | StartGenerate(p: nat) | StartReset(p: nat)
    | Move(p: nat) | Grant(p: nat, skip: nat) | CallbackFails(p: nat) | Enqueue(p: nat, worker: nat)

  predicate Enabled(s: State, a: Action) {
    match a
    case StartGenerate(p) => p !in s.calls
    case StartReset(p) => p !in s.calls
    case Grant(p, _) => p in s.calls && s.calls[p].LoadCall?
    case CallbackFails(p) => p in s.calls && s.calls[p].LoadCall?
    case Enqueue(p, q) => p in s.calls && s.calls[p].Queue? && q !in s.calls
    case Move(p) =>
      && p in s.calls
      && match GuardOf(s.calls[p])
         case Nothing => true
         case FreeLatch => s.latch == 0
         case Signalled => s.signalled
         case Never => false
  }

  function Goto(s: State, p: nat, pc: Pc): State { s.(calls := s.calls[p := pc]) }

  function Acquire(s: State, p: nat, pc: Pc): State { Goto(s, p, pc).(latch := 1, owner := Some(p)) }

  function Release(s: State, p: nat, pc: Pc): State { Goto(s, p, pc).(latch := s.latch - 1, owner := None) }

  function Max(a: int, b: int): int { if a < b then b else a }

  /** One step of Generate. */
  function GenerateStep(s: State, p: nat): State
    requires p in s.calls
  {
    match s.calls[p]
    case Spin => Acquire(s, p, Take)
    case Take => Goto(s, p, Check(s.next)).(next := s.next + 1)
    case Check(id) =>
      var left := s.end - s.next;
      Goto(s, p, if left >= s.k.threshold then Leave(Return(id))
                 else if !s.loading then ResetEvent(id, left) else OutOfIds(id, left))
    case ResetEvent(id, left) => Goto(s, p, MarkLoading(id, left)).(signalled := false, loader := Some(p))
    case MarkLoading(id, left) => Goto(s, p, ClearError(id, left)).(loading := true)
    case ClearError(id, left) => Goto(s, p, Queue(id, left)).(failed := false)
    case OutOfIds(id, left) => Goto(s, p, if left < 0 then Unlatch else Leave(Return(id)))
    case Unlatch => Release(s, p, Wait)
    case Wait => Goto(s, p, Respin)
    case Respin => Acquire(s, p, TestError)
    case TestError => Goto(s, p, Leave(if s.failed then Throw else Retry))
    case Leave(Return(id)) => Release(s, p, Finished(Return(id))).(returned := s.returned + [id], homes := s.homes + [s.base])
    case Leave(Throw) => Release(s, p, Finished(Throw))
    case Leave(Retry) => Release(s, p, Spin)
    case _ => s
  }

  /** One step of ResetLoading. */
  function LoadStep(s: State, p: nat): State
    requires p in s.calls
  {
    match s.calls[p]
    case LoadSpin(b) => Acquire(s, p, if b.Some? then LoadNext(b.value) else LoadError(true))
    case LoadNext(b) => Goto(s, p, LoadEnd(b)).(next := b, wasted := s.wasted + [Max(0, s.end - s.next)])
    case LoadEnd(b) => Goto(s, p, LoadError(false)).(end := b + s.k.blockSize, base := b)
    case LoadError(f) => Goto(s, p, LoadFlag).(failed := f)
    case LoadFlag => Goto(s, p, LoadSignal).(loading := false)
    case LoadSignal => Goto(s, p, LoadRelease).(signalled := true, loader := None)
    case LoadRelease => Release(s, p, Finished(Retry))
    case _ => s
  }

  /** One step of ResetCache. */
  function ResetStep(s: State, p: nat): State
    requires p in s.calls
  {
    match s.calls[p]
    case ResetWait => Goto(s, p, ResetSpin)
    case ResetSpin => Acquire(s, p, ResetTest)
    case ResetTest => Goto(s, p, if s.signalled then ResetNext else ResetRelease(true))
    case ResetNext => Goto(s, p, ResetEnd).(next := 0)
    case ResetEnd => Goto(s, p, ResetRelease(false)).(end := 0)
    case ResetRelease(again) => Release(s, p, if again then ResetWait else Finished(Retry))
    case _ => s
  }

  datatype Role = Generates | LoadsBlock | ResetsCache

  function RoleOf(pc: Pc): Role {
    match pc
    case LoadCall | LoadSpin(_) | LoadNext(_) | LoadEnd(_) | LoadError(_) | LoadFlag | LoadSignal | LoadRelease => LoadsBlock
    case ResetWait | ResetSpin | ResetTest | ResetNext | ResetEnd | ResetRelease(_) => ResetsCache
    case _ => Generates
  }

  /** One step of one call; an action that is not enabled changes nothing. */
  function Step(s: State, a: Action): State {
    if !Enabled(s, a) then s
    else match a
      case StartGenerate(p) => Goto(s, p, Spin)
      case StartReset(p) => Goto(s, p, ResetWait)
      case Grant(p, skip) =>
        var block := s.stored + skip;
        Goto(s, p, LoadSpin(Some(block))).(stored := block + s.k.blockSize, granted := s.granted + {block})
      case CallbackFails(p) => Goto(s, p, LoadSpin(None))
      case Enqueue(p, q) =>
        Goto(Goto(s, q, LoadCall), p, OutOfIds(s.calls[p].id, s.calls[p].left)).(loader := Some(q))
      case Move(p) =>
        match RoleOf(s.calls[p])
        case Generates => GenerateStep(s, p)
        case LoadsBlock => LoadStep(s, p)
        case ResetsCache => ResetStep(s, p)
  }

  function Run(s: State, actions: seq<Action>): State
    decreases |actions|
  {
    if actions == [] then s
    else Step(Run(s, actions[..|actions| - 1]), actions[|actions| - 1])
  }

  // --- The invariant ---

  /** Mutual exclusion: the latch counts its holder. */
  ghost predicate LatchInv(s: State) {
    && s.latch == (if s.owner.Some? then 1 else 0)
    && (s.owner.Some? ==> s.owner.value in s.calls)
    && forall p :: p in s.calls ==> (Holds(s.calls[p]) <==> s.owner == Some(p))
  }

  /** At most one load, and the event is unsignalled exactly while there is one. */
  ghost predicate LoadInv(s: State) {
    && (s.loader.Some? ==> s.loader.value in s.calls)
    && (forall p :: p in s.calls ==> (Loads(s.calls[p]) <==> s.loader == Some(p)))
    && s.signalled == s.loader.None?
    && s.loading == (s.loader.Some? && Flagged(s.calls[s.loader.value]))
  }

  ghost predicate AllBelow(ids: seq<int>, bound: int) {
    forall i :: 0 <= i < |ids| ==> ids[i] < bound
  }

  /** ResetCache has zeroed _nextId but not yet _endOfRange. */
  ghost predicate MidReset(s: State) {
    s.owner.Some? && s.owner.value in s.calls && s.calls[s.owner.value].ResetEnd?
  }

  /** [next, end) is the unissued rest of the block granted at `base`, or empty. */
  ghost predicate WindowInv(s: State) {
    && 0 <= s.end <= s.stored
    && AllBelow(s.returned, s.stored)
    && (MidReset(s) || s.end <= s.next || FromBlock(s, s.next))
  }

  /** `id` can be issued now: it lies in the window's block, above every returned ID. */
  ghost predicate FromBlock(s: State, id: int) {
    AllBelow(s.returned, id) && s.base in s.granted && s.base <= id && s.end == s.base + s.k.blockSize
  }

  /** An ID in hand that will be returned if it lies in the window. */
  ghost predicate InHand(s: State, id: int) {
    s.next == id + 1 && (s.end <= id || FromBlock(s, id))
  }

  /** A granted block on its way into the window. */
  ghost predicate Incoming(s: State, b: int) {
    s.end <= b && b + s.k.blockSize <= s.stored && AllBelow(s.returned, b) && b in s.granted
  }

  /** What a call knows at its present place: an ID in hand (`mine` if it is sure to be
      returned), the value of its local `remaining`, that few IDs are left, a block to
      install, the value of _nextId, and the state of the flag and the event. */
  datatype Claim = Claim(hand: Option<int>, mine: bool, left: Option<int>, few: bool,
                         block: Option<int>, at: Option<int>, idle: bool, quiet: bool)

  function ClaimOf(pc: Pc): Claim {
    var none := Claim(None, false, None, false, None, None, false, false);
    match pc
    case Check(id) => none.(hand := Some(id))
    case ResetEvent(id, left) => none.(hand := Some(id), left := Some(left), few := true, idle := true)
    case MarkLoading(id, left) => none.(hand := Some(id), left := Some(left), few := true)
    case ClearError(id, left) => none.(hand := Some(id), left := Some(left), few := true)
    case Queue(id, left) => none.(hand := Some(id), left := Some(left), few := true)
    case OutOfIds(id, left) => none.(hand := Some(id), left := Some(left))
    case Leave(Return(id)) => none.(hand := Some(id), mine := true)
    case LoadCall => none.(few := true)
    case LoadSpin(b) => none.(few := true, block := b)
    case LoadNext(b) => none.(few := true, block := Some(b))
    case LoadEnd(b) => none.(block := Some(b), at := Some(b))
    case ResetNext => none.(quiet := true)
    case ResetEnd => none.(quiet := true, at := Some(0))
    case _ => none
  }

  ghost predicate CallInv(s: State, pc: Pc) {
    IsTrue(s, ClaimOf(pc))
  }

  ghost predicate IsTrue(s: State, c: Claim) {
    && (c.hand.Some? ==> InHand(s, c.hand.value) && (c.mine ==> c.hand.value < s.end))
    && (c.left.Some? ==> c.left.value == s.end - s.next)
    && (c.few ==> s.end - s.next < s.k.threshold)
    && (c.block.Some? ==> Incoming(s, c.block.value))
    && (c.at.Some? ==> s.next == c.at.value)
    && (c.idle ==> !s.loading)
    && (c.quiet ==> s.signalled)
  }

  ghost predicate CallsInv(s: State) {
    forall p :: p in s.calls ==> CallInv(s, s.calls[p])
  }

  ghost predicate Inv(s: State) {
    ValidParams(s.k) && LatchInv(s) && LoadInv(s) && WindowInv(s) && CallsInv(s)
  }

  /** The states that satisfy the invariant. */
  type Good = s: State | Inv(s) ghost witness Init(Params(1, 0), 1)

  // --- Each kind of step keeps the invariant ---

  /** What every other call sees of a step: grants only grow. */
  ghost predicate Extends(s: State, s': State) {
    s'.k == s.k && s.stored <= s'.stored && s.granted <= s'.granted
  }

  /** A step that leaves the window, the flags and the returned IDs alone disturbs no call. */
  lemma FrameSame(s: State, s': State, pc: Pc)
    requires CallInv(s, pc) && Extends(s, s')
    requires s'.next == s.next && s'.end == s.end && s'.returned == s.returned && s'.base == s.base
    requires s'.loading == s.loading && s'.signalled == s.signalled
    ensures CallInv(s', pc)
  {
  }

  /** A call outside the latch only minds that IDs are issued from below the old end. */
  lemma FrameOutside(s: State, s': State, pc: Pc)
    requires CallInv(s, pc) && !Holds(pc) && Extends(s, s')
    requires s'.end == s.end && s.next <= s'.next
    requires s'.returned == s.returned || exists id :: id < s.end && s'.returned == s.returned + [id]
    ensures CallInv(s', pc)
  {
  }

  /** Only call `p` moved. */
  ghost predicate Only(s: State, s': State, p: nat) {
    && s'.k == s.k
    && p in s'.calls
    && s'.calls.Keys == s.calls.Keys + {p}
    && forall q :: q in s.calls && q != p ==> s'.calls[q] == s.calls[q]
  }

  /** While `p` holds the latch and issues at most one ID, the other calls are undisturbed. */
  lemma OthersOutside(s: Good, s': State, p: nat)
    requires s.owner == Some(p) && Only(s, s', p) && Extends(s, s')
    requires s'.end == s.end && s.next <= s'.next
    requires s'.returned == s.returned || exists id :: id < s.end && s'.returned == s.returned + [id]
    requires CallInv(s', s'.calls[p])
    ensures CallsInv(s')
  {
    forall q | q in s'.calls && q != p
      ensures CallInv(s', s'.calls[q])
    {
      assert !Holds(s.calls[q]);
      FrameOutside(s, s', s.calls[q]);
    }
  }

  /** While `p` holds the latch and no other call loads, the others do not look at the window. */
  lemma OthersIdle(s: Good, s': State, p: nat)
    requires s.owner == Some(p) && Only(s, s', p)
    requires s.loader == Some(p) || s.loader == None
    requires CallInv(s', s'.calls[p])
    ensures CallsInv(s')
  {
    hide CallInv, WindowInv;
    forall q | q in s'.calls && q != p
      ensures CallInv(s', s'.calls[q])
    {
      assert !Holds(s.calls[q]) && !Loads(s.calls[q]);
      IdleClaim(s', s.calls[q]);
    }
  }

  /** A call that neither holds the latch nor loads claims nothing. */
  lemma IdleClaim(s: State, pc: Pc)
    requires !Holds(pc) && !Loads(pc)
    ensures CallInv(s, pc)
  {
  }

  lemma GotoLatch(s: State, p: nat, pc: Pc)
    requires LatchInv(s)
    requires Holds(pc) == (p in s.calls && Holds(s.calls[p]))
    ensures LatchInv(Goto(s, p, pc))
  {
  }

  lemma AcquireLatch(s: State, p: nat, pc: Pc)
    requires LatchInv(s) && p in s.calls && s.latch == 0 && Holds(pc)
    ensures LatchInv(Acquire(s, p, pc))
  {
  }

  lemma ReleaseLatch(s: State, p: nat, pc: Pc)
    requires LatchInv(s) && p in s.calls && Holds(s.calls[p]) && !Holds(pc)
    ensures LatchInv(Release(s, p, pc))
  {
  }

  /** No shared variable but the latch and the error changes. */
  ghost predicate Calm(s: State, s': State) {
    && s'.next == s.next && s'.end == s.end && s'.base == s.base && s'.returned == s.returned
    && s'.loading == s.loading && s'.signalled == s.signalled
    && s'.stored == s.stored && s'.granted == s.granted && s'.loader == s.loader
  }

  /** A step to `pc` that changes neither whether the call loads nor the window. */
  ghost predicate SamePhase(s: State, p: nat, pc: Pc) {
    && (if p in s.calls then Loads(s.calls[p]) == Loads(pc) && Flagged(s.calls[p]) == Flagged(pc) else !Loads(pc))
    && (p in s.calls ==> !s.calls[p].ResetEnd?)
    && !pc.ResetEnd?
  }

  lemma CalmKeeps(s: Good, n: State, p: nat) returns (s': Good)
    requires Only(s, n, p) && LatchInv(n) && Calm(s, n) && SamePhase(s, p, n.calls[p])
    requires CallInv(s, n.calls[p])
    ensures s' == n
  {
    hide LatchInv, LoadInv, WindowInv, CallsInv, CallInv;
    CalmFlags(s, n, p);
    CalmCalls(s, n, p);
    return n;
  }

  lemma CalmFlags(s: Good, n: State, p: nat)
    requires Only(s, n, p) && LatchInv(n) && Calm(s, n) && SamePhase(s, p, n.calls[p])
    ensures LoadInv(n) && WindowInv(n)
  {
    hide CallsInv;
    if s.owner.Some? && s.calls[s.owner.value].ResetEnd? {
      assert s.owner.value != p && Holds(n.calls[s.owner.value]);
    }
  }

  lemma CalmCalls(s: Good, n: State, p: nat)
    requires Only(s, n, p) && Calm(s, n) && CallInv(s, n.calls[p])
    ensures CallsInv(n) && ValidParams(n.k)
  {
    hide LatchInv, LoadInv, WindowInv, CallInv;
    forall q | q in n.calls
      ensures CallInv(n, n.calls[q])
    {
      FrameSame(s, n, n.calls[q]);
    }
  }

  /** The latch invariant speaks of the latch and the calls only. */
  lemma LatchSame(s: State, n: State)
    requires LatchInv(s) && n.latch == s.latch && n.owner == s.owner && n.calls == s.calls
    ensures LatchInv(n)
  {
  }

  lemma MoveOn(s: Good, p: nat, pc: Pc, failed: bool) returns (s': Good)
    requires SamePhase(s, p, pc) && Holds(pc) == (p in s.calls && Holds(s.calls[p])) && CallInv(s, pc)
    ensures s' == Goto(s, p, pc).(failed := failed)
  {
    hide Inv, LatchInv, LoadInv, CallInv;
    FlagsKnown(s);
    GotoLatch(s, p, pc);
    LatchSame(Goto(s, p, pc), Goto(s, p, pc).(failed := failed));
    s' := CalmKeeps(s, Goto(s, p, pc).(failed := failed), p);
  }

  lemma TakeLatch(s: Good, p: nat, pc: Pc) returns (s': Good)
    requires p in s.calls && SamePhase(s, p, pc) && s.latch == 0 && Holds(pc) && CallInv(s, pc)
    ensures s' == Acquire(s, p, pc)
  {
    AcquireLatch(s, p, pc);
    s' := CalmKeeps(s, Acquire(s, p, pc), p);
  }

  lemma DropLatch(s: Good, p: nat, pc: Pc) returns (s': Good)
    requires p in s.calls && SamePhase(s, p, pc) && Holds(s.calls[p]) && !Holds(pc) && CallInv(s, pc)
    ensures s' == Release(s, p, pc)
  {
    ReleaseLatch(s, p, pc);
    s' := CalmKeeps(s, Release(s, p, pc), p);
  }

  lemma TakeKeeps(s: Good, p: nat) returns (s': Good)
    requires p in s.calls && s.calls[p].Take?
    ensures s' == Goto(s, p, Check(s.next)).(next := s.next + 1)
  {
    var n := Goto(s, p, Check(s.next)).(next := s.next + 1);
    GotoLatch(s, p, Check(s.next));
    OthersOutside(s, n, p);
    return n;
  }

  /** A holder changes only the loading flags and the loader. */
  lemma FlagKeeps(s: Good, n: State, p: nat) returns (s': Good)
    requires s.owner == Some(p) && Only(s, n, p) && LatchInv(n) && LoadInv(n)
    requires n.owner == s.owner && !s.calls[p].ResetEnd? && !n.calls[p].ResetEnd?
    requires n.next == s.next && n.end == s.end && n.base == s.base && n.returned == s.returned
    requires n.stored == s.stored && n.granted == s.granted
    requires CallInv(n, n.calls[p])
    ensures s' == n
  {
    OthersOutside(s, n, p);
    return n;
  }

  /** The loading call, or a call that becomes it while there is none, sets its flags. */
  lemma LoadAfter(s: State, n: State, p: nat)
    requires LoadInv(s) && Only(s, n, p) && p in s.calls && (s.loader == Some(p) || s.loader == None)
    requires n.loader == (if Loads(n.calls[p]) then Some(p) else None)
    requires n.signalled == n.loader.None? && n.loading == (Loads(n.calls[p]) && Flagged(n.calls[p]))
    ensures LoadInv(n)
  {
  }

  lemma BeginLoad(s: Good, p: nat, id: int, left: int) returns (s': Good)
    requires p in s.calls && s.calls[p] == ResetEvent(id, left)
    ensures s' == Goto(s, p, MarkLoading(id, left)).(signalled := false, loader := Some(p))
  {
    var n := Goto(s, p, MarkLoading(id, left)).(signalled := false, loader := Some(p));
    GotoLatch(s, p, MarkLoading(id, left));
    LoadAfter(s, n, p);
    Knows(s, p);
    hide Inv, LoadInv;
    s' := FlagKeeps(s, n, p);
  }

  lemma SetFlag(s: Good, p: nat, id: int, left: int) returns (s': Good)
    requires p in s.calls && s.calls[p] == MarkLoading(id, left)
    ensures s' == Goto(s, p, ClearError(id, left)).(loading := true)
  {
    var n := Goto(s, p, ClearError(id, left)).(loading := true);
    GotoLatch(s, p, ClearError(id, left));
    LoadAfter(s, n, p);
    Knows(s, p);
    hide Inv, LoadInv;
    s' := FlagKeeps(s, n, p);
  }

  lemma ClearFlag(s: Good, p: nat) returns (s': Good)
    requires p in s.calls && s.calls[p].LoadFlag?
    ensures s' == Goto(s, p, LoadSignal).(loading := false)
  {
    hide Inv, WindowInv, CallsInv;
    FlagsKnown(s);
    var n := Goto(s, p, LoadSignal).(loading := false);
    GotoLatch(s, p, LoadSignal);
    LoadAfter(s, n, p);
    hide LoadInv;
    s' := FlagKeeps(s, n, p);
  }

  lemma Signal(s: Good, p: nat) returns (s': Good)
    requires p in s.calls && s.calls[p].LoadSignal?
    ensures s' == Goto(s, p, LoadRelease).(signalled := true, loader := None)
  {
    hide Inv, WindowInv, CallsInv;
    FlagsKnown(s);
    var n := Goto(s, p, LoadRelease).(signalled := true, loader := None);
    GotoLatch(s, p, LoadRelease);
    LoadAfter(s, n, p);
    hide LoadInv;
    s' := FlagKeeps(s, n, p);
  }

  function Enqueued(s: State, p: nat, q: nat): State
    requires p in s.calls && s.calls[p].Queue?
  {
    Goto(Goto(s, q, LoadCall), p, OutOfIds(s.calls[p].id, s.calls[p].left)).(loader := Some(q))
  }

  lemma EnqueueLoad(s: State, p: nat, q: nat)
    requires LatchInv(s) && LoadInv(s) && p in s.calls && s.calls[p].Queue? && q !in s.calls
    ensures LatchInv(Enqueued(s, p, q)) && LoadInv(Enqueued(s, p, q))
  {
    GotoLatch(s, q, LoadCall);
    GotoLatch(Goto(s, q, LoadCall), p, OutOfIds(s.calls[p].id, s.calls[p].left));
  }

  lemma EnqueueCalls(s: Good, p: nat, q: nat)
    requires p in s.calls && s.calls[p].Queue? && q !in s.calls
    ensures CallsInv(Enqueued(s, p, q)) && WindowInv(Enqueued(s, p, q))
  {
    hide LoadInv;
    var n := Enqueued(s, p, q);
    forall r | r in n.calls
      ensures CallInv(n, n.calls[r])
    {
      if r != p && r != q {
        FrameSame(s, n, s.calls[r]);
      }
    }
  }

  lemma EnqueueKeeps(s: Good, p: nat, q: nat) returns (s': Good)
    requires p in s.calls && s.calls[p].Queue? && q !in s.calls
    ensures s' == Enqueued(s, p, q)
  {
    hide LatchInv, LoadInv, WindowInv, CallsInv;
    FlagsKnown(s);
    Knows(s, p);
    EnqueueLoad(s, p, q);
    EnqueueCalls(s, p, q);
    return Enqueued(s, p, q);
  }

  function Returned(s: State, p: nat, id: int): State {
    Release(s, p, Finished(Return(id))).(returned := s.returned + [id], homes := s.homes + [s.base])
  }

  lemma ReturnFlags(s: State, p: nat, id: int)
    requires LatchInv(s) && LoadInv(s) && p in s.calls && s.calls[p] == Leave(Return(id))
    ensures LatchInv(Returned(s, p, id)) && LoadInv(Returned(s, p, id)) && s.owner == Some(p)
  {
    ReleaseLatch(s, p, Finished(Return(id)));
  }

  lemma ReturnWindow(s: Good, p: nat, id: int)
    requires p in s.calls && s.calls[p] == Leave(Return(id)) && s.owner == Some(p)
    ensures WindowInv(Returned(s, p, id)) && id < s.end
  {
    hide LoadInv;
    assert CallInv(s, s.calls[p]);
  }

  lemma ReturnKeeps(s: Good, p: nat, id: int) returns (s': Good)
    requires p in s.calls && s.calls[p] == Leave(Return(id))
    ensures s' == Returned(s, p, id)
  {
    hide LatchInv, LoadInv, WindowInv, CallsInv;
    FlagsKnown(s);
    Knows(s, p);
    ReturnFlags(s, p, id);
    ReturnWindow(s, p, id);
    var n := Returned(s, p, id);
    assert n.returned == s.returned + [id] && id < s.end;
    OthersOutside(s, n, p);
    return n;
  }

  lemma GrantKeeps(s: Good, p: nat, b: int) returns (s': Good)
    requires p in s.calls && s.calls[p].LoadCall? && s.stored <= b
    ensures s' == Goto(s, p, LoadSpin(Some(b))).(stored := b + s.k.blockSize, granted := s.granted + {b})
  {
    hide LatchInv, LoadInv, WindowInv, CallsInv, CallInv;
    FlagsKnown(s);
    Knows(s, p);
    var n := Goto(s, p, LoadSpin(Some(b))).(stored := b + s.k.blockSize, granted := s.granted + {b});
    GotoLatch(s, p, n.calls[p]);
    LatchSame(Goto(s, p, n.calls[p]), n);
    GrantFlags(s, n, p, b);
    GrantCalls(s, n, p, b);
    return n;
  }

  lemma GrantFlags(s: Good, n: State, p: nat, b: int)
    requires p in s.calls && s.calls[p].LoadCall? && s.stored <= b && ValidParams(s.k)
    requires n == Goto(s, p, LoadSpin(Some(b))).(stored := b + s.k.blockSize, granted := s.granted + {b})
    ensures LoadInv(n) && WindowInv(n) && CallInv(n, n.calls[p])
  {
  }

  lemma GrantCalls(s: Good, n: State, p: nat, b: int)
    requires p in s.calls && s.stored <= b && ValidParams(s.k)
    requires n == Goto(s, p, LoadSpin(Some(b))).(stored := b + s.k.blockSize, granted := s.granted + {b})
    requires CallInv(n, n.calls[p])
    ensures CallsInv(n)
  {
    hide LatchInv, LoadInv, WindowInv, CallInv;
    forall q | q in n.calls
      ensures CallInv(n, n.calls[q])
    {
      if q != p {
        FrameSame(s, n, s.calls[q]);
      }
    }
  }

  lemma LoadNextKeeps(s: Good, p: nat, b: int) returns (s': Good)
    requires p in s.calls && s.calls[p] == LoadNext(b)
    ensures s' == Goto(s, p, LoadEnd(b)).(next := b, wasted := s.wasted + [Max(0, s.end - s.next)])
  {
    var n := Goto(s, p, LoadEnd(b)).(next := b, wasted := s.wasted + [Max(0, s.end - s.next)]);
    GotoLatch(s, p, n.calls[p]);
    OthersIdle(s, n, p);
    return n;
  }

  lemma LoadEndKeeps(s: Good, p: nat, b: int) returns (s': Good)
    requires p in s.calls && s.calls[p] == LoadEnd(b)
    ensures s' == Goto(s, p, LoadError(false)).(end := b + s.k.blockSize, base := b)
  {
    hide LatchInv, LoadInv, WindowInv, CallsInv, CallInv;
    FlagsKnown(s);
    var n := Goto(s, p, LoadError(false)).(end := b + s.k.blockSize, base := b);
    GotoLatch(s, p, n.calls[p]);
    LatchSame(Goto(s, p, n.calls[p]), n);
    LoadEndWindow(s, n, p, b);
    OthersIdle(s, n, p);
    return n;
  }

  lemma LoadEndWindow(s: Good, n: State, p: nat, b: int)
    requires p in s.calls && s.calls[p] == LoadEnd(b)
    requires n == Goto(s, p, LoadError(false)).(end := b + s.k.blockSize, base := b)
    ensures LoadInv(n) && WindowInv(n) && CallInv(n, n.calls[p]) && ValidParams(n.k)
    ensures s.owner == Some(p) && s.loader == Some(p)
  {
    assert CallInv(s, s.calls[p]);
  }

  lemma ResetNextKeeps(s: Good, p: nat) returns (s': Good)
    requires p in s.calls && s.calls[p].ResetNext?
    ensures s' == Goto(s, p, ResetEnd).(next := 0)
  {
    var n := Goto(s, p, ResetEnd).(next := 0);
    GotoLatch(s, p, ResetEnd);
    OthersIdle(s, n, p);
    return n;
  }

  lemma ResetEndKeeps(s: Good, p: nat) returns (s': Good)
    requires p in s.calls && s.calls[p].ResetEnd?
    ensures s' == Goto(s, p, ResetRelease(false)).(end := 0)
  {
    var n := Goto(s, p, ResetRelease(false)).(end := 0);
    GotoLatch(s, p, ResetRelease(false));
    OthersIdle(s, n, p);
    return n;
  }

  lemma Knows(s: Good, p: nat)
    requires p in s.calls
    ensures ValidParams(s.k) && CallInv(s, s.calls[p])
  {
  }

  lemma FlagsKnown(s: Good)
    ensures LatchInv(s) && LoadInv(s)
  {
  }

  lemma CheckKeeps(s: Good, p: nat, id: int) returns (s': Good)
    requires p in s.calls && s.calls[p] == Check(id)
    ensures s' == GenerateStep(s, p)
  {
    hide Inv;
    Knows(s, p);
    var left := s.end - s.next;
    if left >= s.k.threshold {
      s' := MoveOn(s, p, Leave(Return(id)), s.failed);
    } else if !s.loading {
      s' := MoveOn(s, p, ResetEvent(id, left), s.failed);
    } else {
      s' := MoveOn(s, p, OutOfIds(id, left), s.failed);
    }
  }

  lemma OutOfIdsKeeps(s: Good, p: nat, id: int, left: int) returns (s': Good)
    requires p in s.calls && s.calls[p] == OutOfIds(id, left)
    ensures s' == GenerateStep(s, p)
  {
    hide Inv;
    Knows(s, p);
    if left < 0 {
      s' := MoveOn(s, p, Unlatch, s.failed);
    } else {
      s' := MoveOn(s, p, Leave(Return(id)), s.failed);
    }
  }

  lemma GenerateKeeps(s: Good, p: nat) returns (s': Good)
    requires Enabled(s, Move(p)) && RoleOf(s.calls[p]).Generates?
    ensures s' == GenerateStep(s, p)
  {
    hide Inv;
    Knows(s, p);
    match s.calls[p]
    case Spin => s' := TakeLatch(s, p, Take);
    case Take => s' := TakeKeeps(s, p);
    case Check(id) => s' := CheckKeeps(s, p, id);
    case ResetEvent(id, left) => s' := BeginLoad(s, p, id, left);
    case MarkLoading(id, left) => s' := SetFlag(s, p, id, left);
    case ClearError(id, left) => s' := MoveOn(s, p, Queue(id, left), false);
    case _ => s' := GenerateRestKeeps(s, p);
  }

  /** The second half of Generate. */
  lemma GenerateRestKeeps(s: Good, p: nat) returns (s': Good)
    requires Enabled(s, Move(p)) && RoleOf(s.calls[p]).Generates?
    requires match s.calls[p]
             case Spin | Take | Check(_) | ResetEvent(_, _) | MarkLoading(_, _) | ClearError(_, _) => false
             case _ => true
    ensures s' == GenerateStep(s, p)
  {
    hide Inv;
    Knows(s, p);
    match s.calls[p]
    case OutOfIds(id, left) => s' := OutOfIdsKeeps(s, p, id, left);
    case Unlatch => s' := DropLatch(s, p, Wait);
    case Wait => s' := MoveOn(s, p, Respin, s.failed);
    case Respin => s' := TakeLatch(s, p, TestError);
    case TestError => s' := MoveOn(s, p, Leave(if s.failed then Throw else Retry), s.failed);
    case Leave(Return(id)) => s' := ReturnKeeps(s, p, id);
    case Leave(Throw) => s' := DropLatch(s, p, Finished(Throw));
    case Leave(Retry) => s' := DropLatch(s, p, Spin);
    case _ => s' := s;
  }

  lemma LoadKeeps(s: Good, p: nat) returns (s': Good)
    requires Enabled(s, Move(p)) && RoleOf(s.calls[p]).LoadsBlock?
    ensures s' == LoadStep(s, p)
  {
    hide Inv;
    Knows(s, p);
    match s.calls[p]
    case LoadSpin(b) => s' := TakeLatch(s, p, if b.Some? then LoadNext(b.value) else LoadError(true));
    case LoadNext(b) => s' := LoadNextKeeps(s, p, b);
    case LoadEnd(b) => s' := LoadEndKeeps(s, p, b);
    case LoadError(f) => s' := MoveOn(s, p, LoadFlag, f);
    case LoadFlag => s' := ClearFlag(s, p);
    case LoadSignal => s' := Signal(s, p);
    case LoadRelease => s' := DropLatch(s, p, Finished(Retry));
    case _ => s' := s;
  }

  lemma ResetKeeps(s: Good, p: nat) returns (s': Good)
    requires Enabled(s, Move(p)) && RoleOf(s.calls[p]).ResetsCache?
    ensures s' == ResetStep(s, p)
  {
    hide Inv;
    Knows(s, p);
    match s.calls[p]
    case ResetWait => s' := MoveOn(s, p, ResetSpin, s.failed);
    case ResetSpin => s' := TakeLatch(s, p, ResetTest);
    case ResetTest => s' := ResetTestKeeps(s, p);
    case ResetNext => s' := ResetNextKeeps(s, p);
    case ResetEnd => s' := ResetEndKeeps(s, p);
    case ResetRelease(again) => s' := ResetReleaseKeeps(s, p);
    case _ => s' := s;
  }

  lemma ResetTestKeeps(s: Good, p: nat) returns (s': Good)
    requires p in s.calls && s.calls[p].ResetTest?
    ensures s' == ResetStep(s, p)
  {
    hide Inv;
    Knows(s, p);
    s' := MoveOn(s, p, if s.signalled then ResetNext else ResetRelease(true), s.failed);
  }

  lemma ResetReleaseKeeps(s: Good, p: nat) returns (s': Good)
    requires p in s.calls && s.calls[p].ResetRelease?
    ensures s' == ResetStep(s, p)
  {
    hide Inv;
    Knows(s, p);
    s' := DropLatch(s, p, if s.calls[p].again then ResetWait else Finished(Retry));
  }

  /** Every step of every interleaving keeps the invariant. */
  lemma StepKeeps(s: Good, a: Action) returns (s': Good)
    ensures s' == Step(s, a)
  {
    hide Inv;
    s' := s;
    if Enabled(s, a) {
      match a
      case StartGenerate(p) => s' := MoveOn(s, p, Spin, s.failed);
      case StartReset(p) => s' := MoveOn(s, p, ResetWait, s.failed);
      case Grant(p, skip) => s' := GrantKeeps(s, p, s.stored + skip);
      case CallbackFails(p) =>
        Knows(s, p);
        s' := MoveOn(s, p, LoadSpin(None), s.failed);
      case Enqueue(p, q) => s' := EnqueueKeeps(s, p, q);
      case Move(p) =>
        match RoleOf(s.calls[p])
        case Generates => s' := GenerateKeeps(s, p);
        case LoadsBlock => s' := LoadKeeps(s, p);
        case ResetsCache => s' := ResetKeeps(s, p);
    }
  }

  // --- What holds of every interleaving ---

  /** Histories: IDs come out in increasing order, each from a granted block; dropped blocks
      had few IDs left; grants are disjoint and lie below the stored value. */
  ghost predicate History(s: State) {
    && |s.homes| == |s.returned|
    && (forall i, j :: 0 <= i < j < |s.returned| ==> s.returned[i] < s.returned[j])
    && (forall i :: 0 <= i < |s.returned| ==>
          s.homes[i] in s.granted && s.homes[i] <= s.returned[i] < s.homes[i] + s.k.blockSize)
    && (forall i :: 0 <= i < |s.wasted| ==> 0 <= s.wasted[i] <= Max(0, s.k.threshold - 1))
    && (forall b :: b in s.granted ==> 1 <= b && b + s.k.blockSize <= s.stored)
    && (forall a, b :: a in s.granted && b in s.granted && a < b ==> a + s.k.blockSize <= b)
    && 1 <= s.stored
  }

  /** The part of a state that History speaks about. */
  datatype Track = Track(k: Params, returned: seq<int>, homes: seq<int>, wasted: seq<int>, granted: set<int>, stored: int)

  function TrackOf(s: State): Track { Track(s.k, s.returned, s.homes, s.wasted, s.granted, s.stored) }

  ghost predicate SameHistory(s: State, n: State) { TrackOf(n) == TrackOf(s) }

  lemma HistorySame(s: State, n: State)
    requires History(s) && SameHistory(s, n)
    ensures History(n)
  {
  }

  lemma HistoryReturn(s: State, n: State, id: int)
    requires History(s) && FromBlock(s, id) && id < s.end && ValidParams(s.k)
    requires SameHistory(s, n.(returned := s.returned, homes := s.homes))
    requires n.returned == s.returned + [id] && n.homes == s.homes + [s.base]
    ensures History(n)
  {
  }

  lemma HistoryDrop(s: State, n: State)
    requires History(s) && s.end - s.next < s.k.threshold
    requires SameHistory(s, n.(wasted := s.wasted)) && n.wasted == s.wasted + [Max(0, s.end - s.next)]
    ensures History(n)
  {
  }

  lemma HistoryGrant(s: State, n: State, b: int)
    requires History(s) && s.stored <= b && ValidParams(s.k)
    requires SameHistory(s, n.(granted := s.granted, stored := s.stored))
    requires n.granted == s.granted + {b} && n.stored == b + s.k.blockSize
    ensures History(n)
  {
  }

  lemma GenerateTrack(s: State, p: nat)
    requires p in s.calls && (s.calls[p].Leave? ==> !s.calls[p].out.Return?)
    ensures SameHistory(s, GenerateStep(s, p))
  {
    match s.calls[p]
    case Check(id) =>
    case OutOfIds(id, left) =>
    case Leave(out) =>
    case _ =>
  }

  lemma LoadTrack(s: State, p: nat)
    requires p in s.calls && !s.calls[p].LoadNext?
    ensures SameHistory(s, LoadStep(s, p))
  {
  }

  lemma ResetTrack(s: State, p: nat)
    requires p in s.calls
    ensures SameHistory(s, ResetStep(s, p))
  {
  }

  lemma HistoryKeeps(s: Good, a: Action)
    requires History(s)
    ensures History(Step(s, a))
  {
    hide Inv, History;
    var n := Step(s, a);
    if !Enabled(s, a) {
    } else if a.Grant? {
      Knows(s, a.p);
      HistoryGrant(s, n, s.stored + a.skip);
    } else if a.Move? && s.calls[a.p].Leave? && s.calls[a.p].out.Return? {
      Knows(s, a.p);
      HistoryReturn(s, n, s.calls[a.p].out.id);
    } else if a.Move? && s.calls[a.p].LoadNext? {
      Knows(s, a.p);
      HistoryDrop(s, n);
    } else {
      if a.Move? {
        GenerateTrack(s, a.p);
        LoadTrack(s, a.p);
        ResetTrack(s, a.p);
      }
      hide GenerateStep, LoadStep, ResetStep;
      HistorySame(s, n);
    }
  }

  /** Every interleaving reaches a state with the invariant and a good history. */
  lemma {:induction false} RunKeeps(k: Params, stored: int, actions: seq<Action>) returns (s: Good)
    requires ValidParams(k) && 1 <= stored
    ensures s == Run(Init(k, stored), actions) && History(s)
    decreases |actions|
  {
    if actions == [] {
      s := Init(k, stored);
    } else {
      hide Inv, History;
      var before := RunKeeps(k, stored, actions[..|actions| - 1]);
      HistoryKeeps(before, actions[|actions| - 1]);
      s := StepKeeps(before, actions[|actions| - 1]);
    }
  }

  ghost predicate FromGrant(k: Params, granted: set<int>, id: int) {
    exists b :: b in granted && b <= id < b + k.blockSize
  }

  /** No ID is returned twice — they even come out in increasing order — and every one lies
      in a block the callback granted; the granted blocks are disjoint. */
  lemma IdsUnique(k: Params, stored: int, actions: seq<Action>)
    requires ValidParams(k) && 1 <= stored
    ensures var s := Run(Init(k, stored), actions);
            && (forall i, j :: 0 <= i < j < |s.returned| ==> s.returned[i] < s.returned[j])
            && (forall i :: 0 <= i < |s.returned| ==> FromGrant(k, s.granted, s.returned[i]))
            && (forall a, b :: a in s.granted && b in s.granted && a < b ==> a + k.blockSize <= b)
  {
    hide Inv;
    var s := RunKeeps(k, stored, actions);
    RunParams(Init(k, stored), actions);
    forall i | 0 <= i < |s.returned|
      ensures FromGrant(k, s.granted, s.returned[i])
    {
      assert s.homes[i] in s.granted;
    }
  }

  lemma {:induction false} RunParams(s: State, actions: seq<Action>)
    ensures Run(s, actions).k == s.k
    decreases |actions|
  {
    if actions != [] {
      hide Step;
      RunParams(s, actions[..|actions| - 1]);
      StepParams(Run(s, actions[..|actions| - 1]), actions[|actions| - 1]);
    }
  }

  lemma GenerateParams(s: State, p: nat)
    requires p in s.calls
    ensures GenerateStep(s, p).k == s.k
  {
  }

  lemma LoadParams(s: State, p: nat)
    requires p in s.calls
    ensures LoadStep(s, p).k == s.k
  {
  }

  lemma ResetParams(s: State, p: nat)
    requires p in s.calls
    ensures ResetStep(s, p).k == s.k
  {
  }

  lemma StepParams(s: State, a: Action)
    ensures Step(s, a).k == s.k
  {
    hide GenerateStep, LoadStep, ResetStep;
    if Enabled(s, a) && a.Move? {
      GenerateParams(s, a.p);
      LoadParams(s, a.p);
      ResetParams(s, a.p);
    }
  }

  /** A block replaced by the next one wastes at most max(0, threshold - 1) IDs. */
  lemma WasteBounded(k: Params, stored: int, actions: seq<Action>)
    requires ValidParams(k) && 1 <= stored
    ensures var s := Run(Init(k, stored), actions);
            forall i :: 0 <= i < |s.wasted| ==> 0 <= s.wasted[i] <= Max(0, k.threshold - 1)
  {
    hide Inv;
    var s := RunKeeps(k, stored, actions);
    RunParams(Init(k, stored), actions);
  }

  /** One latch holder, and at most one load being started or outstanding. */
  lemma Exclusion(k: Params, stored: int, actions: seq<Action>, p: nat, q: nat)
    requires ValidParams(k) && 1 <= stored
    requires p in Run(Init(k, stored), actions).calls && q in Run(Init(k, stored), actions).calls
    ensures var s := Run(Init(k, stored), actions);
            && (Holds(s.calls[p]) && Holds(s.calls[q]) ==> p == q)
            && (Loads(s.calls[p]) && Loads(s.calls[q]) ==> p == q)
            && (Holds(s.calls[p]) ==> s.latch == 1)
  {
    hide Inv, History;
    var s := RunKeeps(k, stored, actions);
    FlagsKnown(s);
  }

  /** The event is unsignalled exactly while a load is being started or outstanding. */
  lemma EventTracksLoad(k: Params, stored: int, actions: seq<Action>)
    requires ValidParams(k) && 1 <= stored
    ensures var s := Run(Init(k, stored), actions);
            !s.signalled <==> exists p :: p in s.calls && Loads(s.calls[p])
  {
    hide Inv, History;
    var s := RunKeeps(k, stored, actions);
    FlagsKnown(s);
    if s.loader.Some? {
      assert s.loader.value in s.calls && Loads(s.calls[s.loader.value]);
    }
  }

  /** No interleaving strands a call: while any is unfinished, some call can move. */
  lemma NoDeadlock(k: Params, stored: int, actions: seq<Action>, p: nat) returns (a: Action)
    requires ValidParams(k) && 1 <= stored
    requires p in Run(Init(k, stored), actions).calls && !Run(Init(k, stored), actions).calls[p].Finished?
    ensures Enabled(Run(Init(k, stored), actions), a)
    ensures !a.StartGenerate? && !a.StartReset?
  {
    hide Inv, History;
    var s := RunKeeps(k, stored, actions);
    FlagsKnown(s);
    if s.owner.Some? {
      var h := s.owner.value;
      a := if s.calls[h].Queue? then Enqueue(h, Fresh(s.calls.Keys)) else Move(h);
    } else if s.loader.Some? {
      var l := s.loader.value;
      assert !Holds(s.calls[l]);
      a := if s.calls[l].LoadCall? then Grant(l, 0) else Move(l);
    } else {
      assert !Holds(s.calls[p]) && !Loads(s.calls[p]);
      a := Move(p);
    }
  }

  /** A call number not in use. */
  ghost function Fresh(used: set<nat>): (n: nat)
    ensures forall x :: x in used ==> x < n
  {
    if used == {} then 0
    else
      var x :| x in used;
      var rest := Fresh(used - {x});
      assert forall y :: y in used ==> y == x || y in used - {x};
      if x < rest then rest else x + 1
  }

  // --- The C++ port ---

  /** IDGenerator.cpp: the members _nextId and _endOfRange, and the next block to be granted. */
  datatype Port = Port(next: int, end: int, stored: int)

  /** Generate of the port, with a callback that succeeds. */
  function PortGenerate(n: int, s: Port): (Port, int) {
    if s.end - s.next <= 0 then (Port(s.stored, s.stored + n, s.stored + n), s.stored)
    else (s.(next := s.next + 1), s.next + 1)
  }

  /** The IDs the port hands out, one per call. */
  function PortIds(n: int, s: Port, calls: nat): seq<int>
    decreases calls
  {
    if calls == 0 then [] else [PortGenerate(n, s).1] + PortIds(n, PortGenerate(n, s).0, calls - 1)
  }

  lemma {:induction false} PortWithinBlock(n: int, s: Port, calls: nat)
    requires s.next + calls <= s.end
    ensures PortIds(n, s, calls) == seq(calls, i => s.next + 1 + i)
    decreases calls
  {
    if calls > 0 {
      PortWithinBlock(n, s.(next := s.next + 1), calls - 1);
      assert PortIds(n, s, calls) == [s.next + 1] + PortIds(n, s.(next := s.next + 1), calls - 1);
    }
  }

  lemma {:induction false} PortIdsAppend(n: int, s: Port, a: nat, b: nat) returns (mid: Port)
    ensures PortIds(n, s, a + b) == PortIds(n, s, a) + PortIds(n, mid, b)
    ensures a > 0 && s.end - s.next <= 0 && a <= n + 1 ==> mid == Port(s.stored + a - 1, s.stored + n, s.stored + n)
    ensures s.next + a <= s.end ==> mid == s.(next := s.next + a)
    decreases a
  {
    if a == 0 {
      mid := s;
    } else {
      var s1 := PortGenerate(n, s).0;
      mid := PortIdsAppend(n, s1, a - 1, b);
      assert PortIds(n, s, a) == [PortGenerate(n, s).1] + PortIds(n, s1, a - 1);
    }
  }

  /** For every block size, starting from an exhausted block, the port hands out n + 1 IDs
      of an n-ID block, and the call after that returns the last of them again. */
  lemma PortRepeats(n: int, s: Port)
    requires 1 <= n && s.end - s.next <= 0
    ensures var ids := PortIds(n, s, n + 2);
            |ids| == n + 2 && ids[n] == s.stored + n && ids[n + 1] == s.stored + n
  {
    var mid := PortIdsAppend(n, s, n + 1, 1);
    assert PortIds(n, mid, 1) == [PortGenerate(n, mid).1] + PortIds(n, PortGenerate(n, mid).0, 0);
    var s1 := PortGenerate(n, s).0;
    PortWithinBlock(n, s1, n);
    assert PortIds(n, s, n + 1) == [s.stored] + PortIds(n, s1, n);
  }

  ghost predicate AllDifferent(ids: seq<int>) {
    forall i, j :: 0 <= i < j < |ids| ==> ids[i] != ids[j]
  }

  /** So, from an exhausted block, the IDs of the port differ for exactly n + 1 calls. */
  lemma PortDistinctIff(n: int, s: Port, calls: nat)
    requires 1 <= n && s.end - s.next <= 0
    ensures AllDifferent(PortIds(n, s, calls)) <==> calls <= n + 1
  {
    if calls > n + 1 {
      PortRepeats(n, s);
      var mid := PortIdsAppend(n, s, n + 2, calls - (n + 2));
      var ids := PortIds(n, s, calls);
      assert ids[n] == ids[n + 1];
    } else if calls > 0 {
      var s1 := PortGenerate(n, s).0;
      PortWithinBlock(n, s1, calls - 1);
      assert PortIds(n, s, calls) == [s.stored] + PortIds(n, s1, calls - 1);
    }
  }
}
