/** Progress of ID allocation: whatever the interleaving so far, every unfinished call can
    still finish. */
module IdProgress {
  import opened Options
  import opened IdAllocation

  /** A load that has been started and will bring a block, or has been granted one. */
  predicate Brings(pc: Pc) {
    match pc
    case LoadCall | LoadNext(_) | LoadEnd(_) => true
    case LoadSpin(b) => b.Some?
    case _ => false
  }

  /** A load that has failed and will say so. */
  predicate Fails(pc: Pc) {
    match pc
    case LoadSpin(b) => b.None?
    case LoadError(f) => f
    case _ => false
  }

  /** Where the load stands: the loader, or the call that has signalled and is to release the
      latch. */
  function Loading(s: State): Option<Pc> {
    if s.loader.Some? && s.loader.value in s.calls && RoleOf(s.calls[s.loader.value]).LoadsBlock?
      then Some(s.calls[s.loader.value])
    else if Releases(s) then Some(LoadRelease)
    else None
  }

  predicate Releases(s: State) {
    s.owner.Some? && s.owner.value in s.calls && s.calls[s.owner.value].LoadRelease?
  }

  /** The steps a load still takes. */
  function LoadLeft(pc: Pc): nat {
    match pc
    case LoadCall => 9
    case LoadSpin(_) => 8
    case LoadNext(_) => 7
    case LoadEnd(_) => 6
    case LoadError(_) => 5
    case LoadFlag => 4
    case LoadSignal => 3
    case LoadRelease => 1
    case _ => 0
  }

  /** An ID is there, or a block is coming. */
  predicate Hopeful(s: State) {
    s.next < s.end || (Loading(s).Some? && Brings(Loading(s).value))
  }

  /** A call that waits for the present load will find the error flag set. */
  predicate Doomed(s: State) {
    match Loading(s)
    case Some(pc) => Fails(pc) || (s.failed && !Brings(pc) && !pc.LoadError?)
    case None => s.failed
  }

  /** The steps a holder of the latch takes at most before it releases it. */
  function HoldLeft(pc: Pc): nat {
    match pc
    case Take => 8
    case Check(_) => 7
    case ResetEvent(_, _) => 6
    case MarkLoading(_, _) => 5
    case ClearError(_, _) => 4
    case Queue(_, _) => 3
    case OutOfIds(_, _) => 2
    case TestError => 2
    case ResetTest => 4
    case ResetNext => 3
    case ResetEnd => 2
    case _ => 1
  }

  /** What a generating call that holds an ID still has before it: with the ID in the window
      the call returns it; otherwise it starts a load and waits. */
  function Holding(pc: Pc, good: bool): nat {
    var extra := if good then 0 else 30;
    match pc
    case OutOfIds(_, _) => extra + 2
    case Queue(_, _) => extra + 12
    case ClearError(_, _) => extra + 13
    case MarkLoading(_, _) => extra + 14
    case ResetEvent(_, _) => extra + 15
    case Check(_) => extra + 16
    case _ => extra + 17
  }

  /** What a waiting call still has before it. */
  function Waiting(s: State, pc: Pc): nat {
    var back := match pc
                case Spin => 1
                case Leave(_) => 2
                case TestError => 3
                case Respin => 4
                case Wait => 5
                case Unlatch => 6
                case _ => 7;
    if !pc.Spin? && !pc.Leave? && (if pc.TestError? then s.failed else Doomed(s)) then back
    else if Hopeful(s) then 17 + back else 47 + back
  }

  /** What a call still has before it, not counting the load it may wait for. */
  function Left(s: State, pc: Pc): nat {
    match pc
    case Finished(_) => 0
    case Leave(Return(_)) | Leave(Throw) => 1
    case Spin | Leave(Retry) | TestError | Respin | Wait | Unlatch => Waiting(s, pc)
    case OutOfIds(_, left) => if left >= 0 then 2 else Waiting(s, pc)
    case Queue(_, left) => Holding(pc, left >= 0)
    case ClearError(_, left) => Holding(pc, left >= 0)
    case MarkLoading(_, left) => Holding(pc, left >= 0)
    case ResetEvent(_, left) => Holding(pc, left >= 0)
    case Check(_) => Holding(pc, s.end - s.next >= 0)
    case Take => Holding(pc, s.next < s.end)
    case ResetRelease(again) => if again then 7 else 1
    case ResetWait => 6
    case ResetSpin => 5
    case ResetTest => if s.signalled then 4 else 8
    case ResetNext => 3
    case ResetEnd => 2
    case _ => 0
  }

  /** Another call holds the latch, and it is no load. */
  predicate Foreign(s: State, p: nat) {
    s.owner.Some? && s.owner.value != p && s.owner.value in s.calls && !RoleOf(s.calls[s.owner.value]).LoadsBlock?
  }

  function Rank(s: State, p: nat): nat {
    if p !in s.calls then 0
    else if Foreign(s, p) then 1000 + HoldLeft(s.calls[s.owner.value])
    else LoadPart(s) + Left(s, s.calls[p])
  }

  function LoadPart(s: State): nat {
    (if Loading(s).Some? then LoadLeft(Loading(s).value) else 0) + (if Releases(s) then 1 else 0)
  }

  /** The schedule: the holder of the latch goes on, else the load, else the call itself. */
  ghost function Schedule(s: State, p: nat): Action {
    if s.owner.Some? && s.owner.value in s.calls then
      if s.calls[s.owner.value].Queue? then Enqueue(s.owner.value, Fresh(s.calls.Keys)) else Move(s.owner.value)
    else if s.loader.Some? && s.loader.value in s.calls then
      if s.calls[s.loader.value].LoadCall? then Grant(s.loader.value, 0) else Move(s.loader.value)
    else Move(p)
  }

  lemma Latched(s: Good, p: nat)
    requires p in s.calls
    ensures s.owner.Some? ==> s.owner.value in s.calls && Holds(s.calls[s.owner.value])
    ensures s.loader.Some? ==> s.loader.value in s.calls && Loads(s.calls[s.loader.value])
    ensures Holds(s.calls[p]) <==> s.owner == Some(p)
    ensures Loads(s.calls[p]) <==> s.loader == Some(p)
    ensures s.latch == (if s.owner.Some? then 1 else 0) && s.signalled == s.loader.None?
    ensures s.loading == (s.loader.Some? && s.loader.value in s.calls && Flagged(s.calls[s.loader.value]))
  {
    FlagsKnown(s);
  }

  lemma ScheduleEnabled(s: Good, p: nat)
    requires p in s.calls && !s.calls[p].Finished?
    ensures Enabled(s, Schedule(s, p))
    ensures !Schedule(s, p).StartGenerate? && !Schedule(s, p).StartReset? && !Schedule(s, p).CallbackFails?
  {
    hide Inv, Rank;
    Latched(s, p);
    if s.owner.Some? {
      Latched(s, s.owner.value);
    } else if s.loader.Some? {
      Latched(s, s.loader.value);
    }
  }

  lemma LeftBounded(s: State, p: nat)
    requires p in s.calls && !Foreign(s, p)
    ensures Rank(s, p) < 1000
  {
    hide Hopeful, Doomed, Loading, Foreign;
  }

  lemma ScheduleEnabledFor(s: Good, h: nat, p: nat)
    requires s.owner == Some(h) && h in s.calls && p in s.calls
    ensures Enabled(s, Schedule(s, p))
    ensures Schedule(s, p) == if s.calls[h].Queue? then Enqueue(h, Fresh(s.calls.Keys)) else Move(h)
  {
    hide Inv, Rank;
    Latched(s, h);
  }

  /** A step of the holder: it keeps the latch and comes closer to its release, or releases. */
  ghost predicate Closer(s: State, s': State, h: nat) {
    && h in s.calls && h in s'.calls
    && (s'.owner.None? || (s'.owner == Some(h) && HoldLeft(s'.calls[h]) < HoldLeft(s.calls[h])))
  }

  lemma GenerateCloser(s: State, h: nat)
    requires h in s.calls && s.owner == Some(h) && Holds(s.calls[h]) && RoleOf(s.calls[h]).Generates? && !s.calls[h].Queue?
    ensures Closer(s, GenerateStep(s, h), h)
  {
  }

  lemma ResetCloser(s: State, h: nat)
    requires h in s.calls && s.owner == Some(h) && Holds(s.calls[h]) && RoleOf(s.calls[h]).ResetsCache?
    ensures Closer(s, ResetStep(s, h), h)
  {
  }

  lemma EnqueueCloser(s: State, h: nat, q: nat)
    requires h in s.calls && s.owner == Some(h) && s.calls[h].Queue? && q !in s.calls
    ensures Closer(s, Step(s, Enqueue(h, q)), h)
  {
    hide GenerateStep, LoadStep, ResetStep;
  }

  lemma MoveIsStep(s: State, h: nat)
    requires Enabled(s, Move(h))
    ensures Step(s, Move(h)) == match RoleOf(s.calls[h])
                                case Generates => GenerateStep(s, h)
                                case LoadsBlock => LoadStep(s, h)
                                case ResetsCache => ResetStep(s, h)
  {
    hide GenerateStep, LoadStep, ResetStep;
  }

  predicate MovesLatch(pc: Pc) { pc.Spin? || pc.Respin? || pc.Unlatch? || pc.Leave? }

  lemma LatchStays(s: State, h: nat, p: nat)
    requires h in s.calls && p in s.calls && MovesLatch(s.calls[h])
    ensures p in GenerateStep(s, h).calls
  {
  }

  lemma PlainStays(s: State, h: nat, p: nat)
    requires h in s.calls && p in s.calls && !MovesLatch(s.calls[h])
    ensures p in GenerateStep(s, h).calls
  {
  }

  lemma ResetStays(s: State, h: nat, p: nat)
    requires h in s.calls && p in s.calls
    ensures p in ResetStep(s, h).calls
  {
  }

  lemma EnqueueStays(s: State, h: nat, q: nat, p: nat)
    requires p in s.calls
    ensures p in Step(s, Enqueue(h, q)).calls
  {
    hide GenerateStep, LoadStep, ResetStep;
  }

  /** Another holder of the latch comes closer to releasing it. */
  lemma ForeignFalls(s: Good, p: nat)
    requires p in s.calls && Foreign(s, p)
    ensures var s' := Step(s, Schedule(s, p));
            p in s'.calls && Rank(s', p) < Rank(s, p)
  {
    hide Inv, Left, Loading, GenerateStep, LoadStep, ResetStep, HoldLeft, Enabled;
    var h := s.owner.value;
    Latched(s, h);
    ScheduleEnabledFor(s, h, p);
    var a := Schedule(s, p);
    var s' := Step(s, a);
    if s.calls[h].Queue? {
      EnqueueCloser(s, h, Fresh(s.calls.Keys));
      EnqueueStays(s, h, Fresh(s.calls.Keys), p);
    } else {
      MoveIsStep(s, h);
      if RoleOf(s.calls[h]).Generates? {
        GenerateCloser(s, h);
        if MovesLatch(s.calls[h]) {
          LatchStays(s, h, p);
        } else {
          PlainStays(s, h, p);
        }
      } else {
        ResetCloser(s, h);
        ResetStays(s, h, p);
      }
    }
    hide Step, Schedule;
    if !Foreign(s', p) {
      LeftBounded(s', p);
    }
  }

  // --- Steps of the load ---

  /** A step of the load `l`: it comes closer to its end, hope and doom stay, and no other call
      notices. */
  ghost predicate LoadsOn(s: State, s': State, l: nat) {
    && l in s.calls && l in s'.calls
    && (RoleOf(s'.calls[l]).LoadsBlock? || s'.calls[l].Finished?)
    && (s'.owner.Some? ==> s'.owner == Some(l) && RoleOf(s'.calls[l]).LoadsBlock?)
    && LoadPart(s') < LoadPart(s)
    && (Hopeful(s) ==> Hopeful(s')) && (Doomed(s) ==> Doomed(s'))
    && forall p :: p in s.calls && p != l ==> p in s'.calls && s'.calls[p] == s.calls[p]
  }

  /** The load is the next to move. */
  ghost predicate LoadNextUp(s: State, l: nat) {
    && l in s.calls && RoleOf(s.calls[l]).LoadsBlock?
    && (s.owner == Some(l) || (s.owner.None? && s.loader == Some(l)))
  }

  lemma GrantLoadsOn(s: Good, l: nat)
    requires LoadNextUp(s, l) && s.calls[l].LoadCall?
    ensures LoadsOn(s, Step(s, Grant(l, 0)), l)
  {
    hide GenerateStep, LoadStep, ResetStep, Inv;
    Latched(s, l);
  }

  lemma AcquireLoadsOn(s: Good, l: nat)
    requires LoadNextUp(s, l) && s.calls[l].LoadSpin?
    ensures LoadsOn(s, LoadStep(s, l), l)
  {
    hide GenerateStep, ResetStep, Inv;
    Latched(s, l);
  }

  lemma WindowLoadsOn(s: Good, l: nat)
    requires LoadNextUp(s, l) && (s.calls[l].LoadNext? || s.calls[l].LoadEnd?)
    ensures LoadsOn(s, LoadStep(s, l), l)
  {
    hide GenerateStep, ResetStep, Inv;
    Latched(s, l);
    LoadClaim(s, l);
  }

  lemma LoadClaim(s: Good, l: nat)
    requires l in s.calls
    ensures s.calls[l].LoadEnd? ==> s.next == s.calls[l].start
    ensures s.k.blockSize >= 1
  {
    assert CallInv(s, s.calls[l]);
  }

  lemma EndLoadsOn(s: Good, l: nat)
    requires LoadNextUp(s, l) && (s.calls[l].LoadError? || s.calls[l].LoadFlag? || s.calls[l].LoadSignal?)
    ensures LoadsOn(s, LoadStep(s, l), l)
  {
    hide GenerateStep, ResetStep, Inv;
    Latched(s, l);
  }

  lemma ReleaseLoadsOn(s: Good, l: nat)
    requires LoadNextUp(s, l) && s.calls[l].LoadRelease?
    ensures LoadsOn(s, LoadStep(s, l), l)
  {
    hide GenerateStep, ResetStep, Inv;
    Latched(s, l);
    if s.loader.Some? {
      Latched(s, s.loader.value);
    }
  }

  /** What a call outside the latch has before it does not grow by that. */
  lemma OutsideSame(s: State, s': State, l: nat, p: nat)
    requires LoadsOn(s, s', l) && p in s.calls && p != l && !Holds(s.calls[p])
    ensures Left(s', s'.calls[p]) <= Left(s, s.calls[p])
  {
    hide Hopeful, Doomed, LoadPart;
  }

  lemma LoadMoves(s: Good, p: nat, l: nat)
    requires p in s.calls && !s.calls[p].Finished? && LoadNextUp(s, l)
    ensures LoadsOn(s, Step(s, Schedule(s, p)), l)
  {
    hide Inv, GenerateStep, LoadStep, ResetStep, Hopeful, Doomed, Left, LoadPart, Enabled;
    Latched(s, l);
    ScheduleEnabled(s, p);
    if s.calls[l].LoadCall? {
      GrantLoadsOn(s, l);
    } else {
      MoveIsStep(s, l);
      if s.calls[l].LoadSpin? {
        AcquireLoadsOn(s, l);
      } else if s.calls[l].LoadNext? || s.calls[l].LoadEnd? {
        WindowLoadsOn(s, l);
      } else if s.calls[l].LoadRelease? {
        ReleaseLoadsOn(s, l);
      } else {
        EndLoadsOn(s, l);
      }
    }
  }

  lemma LoadFalls(s: Good, p: nat, l: nat)
    requires p in s.calls && !s.calls[p].Finished? && LoadNextUp(s, l)
    ensures var s' := Step(s, Schedule(s, p));
            p in s'.calls && Rank(s', p) < Rank(s, p)
  {
    hide Inv, Step, Schedule, Rank, LoadsOn;
    Latched(s, p);
    Latched(s, l);
    LoadMoves(s, p, l);
    LoadRankFalls(s, Step(s, Schedule(s, p)), l, p);
  }

  lemma LoadRankFalls(s: State, s': State, l: nat, p: nat)
    requires LoadsOn(s, s', l) && LoadNextUp(s, l) && p in s.calls && (p != l ==> !Holds(s.calls[p]))
    ensures p in s'.calls && Rank(s', p) < Rank(s, p)
  {
    hide Hopeful, Doomed, LoadPart, Left;
    if p != l {
      OutsideSame(s, s', l, p);
    } else {
      LoadHasNone(s, s.calls[l]);
      LoadHasNone(s', s'.calls[l]);
    }
  }

  lemma LoadHasNone(s: State, pc: Pc)
    requires RoleOf(pc).LoadsBlock? || pc.Finished?
    ensures Left(s, pc) == 0
  {
  }

  // --- Steps of the call itself ---

  /** The call is the next to move: it holds the latch, or nobody does and nothing loads. */
  ghost predicate OwnNextUp(s: State, p: nat) {
    && p in s.calls && !s.calls[p].Finished? && !RoleOf(s.calls[p]).LoadsBlock?
    && (s.owner == Some(p) || (s.owner.None? && s.loader.None?))
  }

  /** A step of the call itself, after which it has less before it. */
  ghost predicate MovesOn(s: State, s': State, p: nat) {
    && p in s.calls && p in s'.calls && !Foreign(s', p)
    && LoadPart(s') + Left(s', s'.calls[p]) < LoadPart(s) + Left(s, s.calls[p])
  }

  /** What the loader can be while the call holds the latch or nothing loads: itself, a load
      outside the latch, or none. */
  lemma Outstanding(s: Good, p: nat)
    requires OwnNextUp(s, p)
    ensures Holds(s.calls[p]) <==> s.owner == Some(p)
    ensures Loads(s.calls[p]) <==> s.loader == Some(p)
    ensures s.latch == (if s.owner.Some? then 1 else 0) && s.signalled == s.loader.None?
    ensures s.loader.Some? ==> s.loader.value in s.calls
    ensures s.loader.Some? && s.loader.value != p ==> s.loading && (s.calls[s.loader.value].LoadCall? || s.calls[s.loader.value].LoadSpin?)
    ensures s.loader.None? ==> !s.loading
  {
    hide Inv;
    Latched(s, p);
    if s.loader.Some? {
      Latched(s, s.loader.value);
    }
  }

  /** Taking an ID: it lies in the window exactly if the window was not empty. */
  lemma TakeMovesOn(s: Good, p: nat)
    requires OwnNextUp(s, p) && (s.calls[p].Spin? || s.calls[p].Take?)
    ensures MovesOn(s, GenerateStep(s, p), p)
  {
    hide Inv, LoadStep, ResetStep;
    Outstanding(s, p);
  }

  lemma CheckMovesOn(s: Good, p: nat)
    requires OwnNextUp(s, p) && s.calls[p].Check?
    ensures MovesOn(s, GenerateStep(s, p), p)
  {
    hide Inv, LoadStep, ResetStep;
    Outstanding(s, p);
    Knows(s, p);
  }

  lemma StartMovesOn(s: Good, p: nat)
    requires OwnNextUp(s, p) && (s.calls[p].ResetEvent? || s.calls[p].MarkLoading? || s.calls[p].ClearError?)
    ensures MovesOn(s, GenerateStep(s, p), p)
  {
    hide Inv, LoadStep, ResetStep;
    Outstanding(s, p);
    Knows(s, p);
  }

  lemma EnqueueMovesOn(s: Good, p: nat, q: nat)
    requires OwnNextUp(s, p) && s.calls[p].Queue? && q !in s.calls
    ensures MovesOn(s, Step(s, Enqueue(p, q)), p)
  {
    hide Inv, GenerateStep, LoadStep, ResetStep;
    Outstanding(s, p);
  }

  lemma OutMovesOn(s: Good, p: nat)
    requires OwnNextUp(s, p) && (s.calls[p].OutOfIds? || s.calls[p].Unlatch?)
    ensures MovesOn(s, GenerateStep(s, p), p)
  {
    hide Inv, LoadStep, ResetStep;
    Outstanding(s, p);
  }

  lemma LeaveMovesOn(s: Good, p: nat)
    requires OwnNextUp(s, p) && s.calls[p].Leave?
    ensures MovesOn(s, GenerateStep(s, p), p)
  {
    hide Inv, LoadStep, ResetStep;
    Outstanding(s, p);
  }

  lemma WaitMovesOn(s: Good, p: nat)
    requires OwnNextUp(s, p) && (s.calls[p].Wait? || s.calls[p].Respin? || s.calls[p].TestError?)
    ensures MovesOn(s, GenerateStep(s, p), p)
  {
    hide Inv, LoadStep, ResetStep;
    Outstanding(s, p);
  }

  lemma ResetWaitMovesOn(s: Good, p: nat)
    requires OwnNextUp(s, p) && (s.calls[p].ResetWait? || s.calls[p].ResetSpin?)
    ensures MovesOn(s, ResetStep(s, p), p)
  {
    hide Inv, LoadStep, GenerateStep;
    Outstanding(s, p);
  }

  lemma ResetHoldMovesOn(s: Good, p: nat)
    requires OwnNextUp(s, p) && (s.calls[p].ResetTest? || s.calls[p].ResetNext? || s.calls[p].ResetEnd?)
    ensures MovesOn(s, ResetStep(s, p), p)
  {
    hide Inv, LoadStep, GenerateStep;
    Outstanding(s, p);
  }

  lemma ResetReleaseMovesOn(s: Good, p: nat)
    requires OwnNextUp(s, p) && s.calls[p].ResetRelease?
    ensures MovesOn(s, ResetStep(s, p), p)
  {
    hide Inv, LoadStep, GenerateStep;
    Outstanding(s, p);
  }

  lemma OwnFalls(s: Good, p: nat)
    requires OwnNextUp(s, p)
    ensures var s' := Step(s, Schedule(s, p));
            p in s'.calls && Rank(s', p) < Rank(s, p)
  {
    hide Inv, GenerateStep, LoadStep, ResetStep, Left, LoadPart, Enabled;
    Outstanding(s, p);
    ScheduleEnabled(s, p);
    if s.calls[p].Queue? {
      EnqueueMovesOn(s, p, Fresh(s.calls.Keys));
    } else {
      MoveIsStep(s, p);
      match s.calls[p]
      case Spin | Take => TakeMovesOn(s, p);
      case Check(_) => CheckMovesOn(s, p);
      case ResetEvent(_, _) | MarkLoading(_, _) | ClearError(_, _) => StartMovesOn(s, p);
      case OutOfIds(_, _) | Unlatch => OutMovesOn(s, p);
      case Leave(_) => LeaveMovesOn(s, p);
      case Wait | Respin | TestError => WaitMovesOn(s, p);
      case ResetWait | ResetSpin => ResetWaitMovesOn(s, p);
      case ResetTest | ResetNext | ResetEnd => ResetHoldMovesOn(s, p);
      case ResetRelease(_) => ResetReleaseMovesOn(s, p);
    }
  }

  // --- Every call can finish ---

  lemma RankFalls(s: Good, p: nat)
    requires p in s.calls && !s.calls[p].Finished?
    ensures var s' := Step(s, Schedule(s, p));
            p in s'.calls && Rank(s', p) < Rank(s, p)
  {
    hide Inv, Step, Schedule, Rank;
    Latched(s, p);
    if s.owner.Some? {
      var h := s.owner.value;
      if RoleOf(s.calls[h]).LoadsBlock? {
        LoadFalls(s, p, h);
      } else if h != p {
        ForeignFalls(s, p);
      } else {
        OwnFalls(s, p);
      }
    } else if s.loader.Some? {
      Latched(s, s.loader.value);
      LoadFalls(s, p, s.loader.value);
    } else {
      OwnFalls(s, p);
    }
  }

  lemma {:induction false} RunCons(s: State, a: Action, more: seq<Action>)
    ensures Run(s, [a] + more) == Run(Step(s, a), more)
    decreases |more|
  {
    hide Step;
    if more == [] {
      assert [a] + more == [a] && [a][..0] == [];
      assert Run(s, []) == s;
    } else {
      assert ([a] + more)[..|more|] == [a] + more[..|more| - 1];
      RunCons(s, a, more[..|more| - 1]);
    }
  }

  /** The steps are those of calls under way: no new call, and no callback fails. */
  ghost predicate NothingNew(actions: seq<Action>) {
    forall i :: 0 <= i < |actions| ==> !actions[i].StartGenerate? && !actions[i].StartReset? && !actions[i].CallbackFails?
  }

  lemma {:induction false} CanFinish(s: Good, p: nat) returns (more: seq<Action>)
    requires p in s.calls
    ensures NothingNew(more) && p in Run(s, more).calls && Run(s, more).calls[p].Finished?
    decreases Rank(s, p)
  {
    hide Inv, Step, Schedule, Rank;
    more := [];
    if !s.calls[p].Finished? {
      var a := Schedule(s, p);
      RankFalls(s, p);
      ScheduleEnabled(s, p);
      var s' := StepKeeps(s, a);
      var rest := CanFinish(s', p);
      more := [a] + rest;
      RunCons(s, a, rest);
    }
  }

  /** Whatever the interleaving so far, every call can still finish, by steps of calls that
      are under way. */
  lemma EveryCallCanFinish(k: Params, stored: int, actions: seq<Action>, p: nat) returns (more: seq<Action>)
    requires ValidParams(k) && 1 <= stored && p in Run(Init(k, stored), actions).calls
    ensures NothingNew(more)
    ensures var s := Run(Run(Init(k, stored), actions), more);
            p in s.calls && s.calls[p].Finished?
  {
    hide Inv, History, Run;
    var s := RunKeeps(k, stored, actions);
    more := CanFinish(s, p);
  }
}
