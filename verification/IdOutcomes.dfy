/** How calls of Generate end: with an exception only after a load that failed, and with an ID
    where none is pending. */
module IdOutcomes {
  import opened IdAllocation
  import opened IdProgress

  // --- No exception without a failed load ---

  /** The place of a call tells of a failed load. */
  predicate Tainted(pc: Pc) {
    Fails(pc) || pc == Leave(Throw) || pc == Finished(Throw)
  }

  /** Nothing in the state tells of a failed load. */
  ghost predicate Clean(s: State) {
    !s.failed && forall p :: p in s.calls ==> !Tainted(s.calls[p])
  }

  lemma GenerateClean(s: State, p: nat)
    requires Clean(s) && p in s.calls
    ensures Clean(GenerateStep(s, p))
  {
  }

  lemma LoadClean(s: State, p: nat)
    requires Clean(s) && p in s.calls
    ensures Clean(LoadStep(s, p))
  {
    assert !Tainted(s.calls[p]);
  }

  lemma ResetClean(s: State, p: nat)
    requires Clean(s) && p in s.calls
    ensures Clean(ResetStep(s, p))
  {
  }

  lemma StepClean(s: State, a: Action)
    requires Clean(s) && (a.CallbackFails? ==> !Enabled(s, a))
    ensures Clean(Step(s, a))
  {
    hide GenerateStep, LoadStep, ResetStep;
    if Enabled(s, a) && a.Move? {
      MoveIsStep(s, a.p);
      GenerateClean(s, a.p);
      LoadClean(s, a.p);
      ResetClean(s, a.p);
    }
  }

  /** The callback of some load failed in the run. */
  ghost predicate SomeLoadFailed(s: State, actions: seq<Action>) {
    exists i :: 0 <= i < |actions| && actions[i].CallbackFails? && Enabled(Run(s, actions[..i]), actions[i])
  }

  lemma {:induction false} RunClean(s: State, actions: seq<Action>)
    requires Clean(s)
    ensures SomeLoadFailed(s, actions) || Clean(Run(s, actions))
    decreases |actions|
  {
    hide Step, Enabled, Clean;
    if actions != [] {
      var n := |actions| - 1;
      var before := actions[..n];
      RunClean(s, before);
      if SomeLoadFailed(s, before) {
        var i :| 0 <= i < n && before[i].CallbackFails? && Enabled(Run(s, before[..i]), before[i]);
        assert actions[..i] == before[..i] && actions[i] == before[i];
      } else if !(actions[n].CallbackFails? && Enabled(Run(s, before), actions[n])) {
        StepClean(Run(s, before), actions[n]);
      }
    }
  }

  /** In every run, a call throws only if the callback of some load has failed. */
  lemma ThrowsOnlyAfterFailure(k: Params, stored: int, actions: seq<Action>, p: nat)
    requires p in Run(Init(k, stored), actions).calls && Run(Init(k, stored), actions).calls[p] == Finished(Throw)
    ensures SomeLoadFailed(Init(k, stored), actions)
  {
    hide Run;
    RunClean(Init(k, stored), actions);
  }

  // --- The error flag while a load is outstanding ---

  /** From the clearing of the error flag to the end of the load. */
  predicate Cleared(pc: Pc) {
    pc.Queue? || pc.LoadCall? || pc.LoadSpin? || pc.LoadNext? || pc.LoadEnd? || pc.LoadError?
  }

  /** The error flag is down while a load is outstanding. */
  ghost predicate FlagDown(s: State) {
    s.loader.Some? && s.loader.value in s.calls && Cleared(s.calls[s.loader.value]) ==> !s.failed
  }

  lemma GenerateFlag(s: Good, p: nat)
    requires FlagDown(s) && p in s.calls
    ensures FlagDown(GenerateStep(s, p))
  {
    hide Inv;
    Latched(s, p);
  }

  lemma LoadsFlag(s: Good, p: nat)
    requires FlagDown(s) && p in s.calls && RoleOf(s.calls[p]).LoadsBlock?
    ensures FlagDown(LoadStep(s, p))
  {
    hide Inv;
    Latched(s, p);
    if s.loader.Some? {
      Latched(s, s.loader.value);
    }
  }

  lemma ResetFlag(s: Good, p: nat)
    requires FlagDown(s) && p in s.calls && RoleOf(s.calls[p]).ResetsCache?
    ensures FlagDown(ResetStep(s, p))
  {
    hide Inv;
    Latched(s, p);
  }

  lemma OtherFlag(s: Good, a: Action)
    requires FlagDown(s) && !a.Move?
    ensures FlagDown(Step(s, a))
  {
    hide Inv, GenerateStep, LoadStep, ResetStep;
    if a.Enqueue? && Enabled(s, a) {
      Latched(s, a.p);
    }
    if (a.Grant? || a.CallbackFails?) && Enabled(s, a) {
      Latched(s, a.p);
    }
    if s.loader.Some? && s.loader.value in s.calls {
      Latched(s, s.loader.value);
    }
  }

  lemma StepFlag(s: Good, a: Action)
    requires FlagDown(s)
    ensures FlagDown(Step(s, a))
  {
    hide Inv, GenerateStep, LoadStep, ResetStep, FlagDown;
    if a.Move? {
      if Enabled(s, a) {
        MoveIsStep(s, a.p);
        match RoleOf(s.calls[a.p])
        case Generates => GenerateFlag(s, a.p);
        case LoadsBlock => LoadsFlag(s, a.p);
        case ResetsCache => ResetFlag(s, a.p);
      }
    } else {
      OtherFlag(s, a);
    }
  }

  lemma {:induction false} RunFlag(k: Params, stored: int, actions: seq<Action>)
    requires ValidParams(k) && 1 <= stored
    ensures FlagDown(Run(Init(k, stored), actions))
    decreases |actions|
  {
    hide Inv, Step, History;
    if actions != [] {
      var n := |actions| - 1;
      RunFlag(k, stored, actions[..n]);
      var before := RunKeeps(k, stored, actions[..n]);
      StepFlag(before, actions[n]);
    }
  }

  // --- Where no failed load is pending, the call returns an ID ---

  /** The call waits for a load, or looks at its outcome. */
  predicate Awaits(pc: Pc) {
    pc.Unlatch? || pc.Wait? || pc.Respin? || pc.TestError? || (pc.OutOfIds? && pc.left < 0)
  }

  /** No failed load is pending, and the call does not look at an old failure. */
  ghost predicate Untroubled(s: State, p: nat) {
    && p in s.calls
    && (forall q :: q in s.calls ==> !Fails(s.calls[q]))
    && s.calls[p] != Leave(Throw)
    && (Awaits(s.calls[p]) ==> !s.failed)
  }

  /** The call is a Generate that has not finished. */
  predicate Generating(s: State, p: nat) {
    p in s.calls && RoleOf(s.calls[p]).Generates? && !s.calls[p].Finished?
  }

  /** The call has just returned the ID that is now last. */
  ghost predicate JustReturned(s: State, s': State, p: nat) {
    && p in s'.calls && s'.calls[p].Finished? && s'.calls[p].out.Return?
    && s'.returned == s.returned + [s'.calls[p].out.id]
  }

  /** The call goes on untroubled, or has returned. */
  ghost predicate GoesWell(s: State, s': State, p: nat) {
    JustReturned(s, s', p) || (Generating(s', p) && Untroubled(s', p) && s.returned <= s'.returned)
  }

  /** Another call moves: it issues at most one ID and raises no error. */
  lemma OtherLatches(s: Good, p: nat, h: nat)
    requires Generating(s, p) && Untroubled(s, p) && h in s.calls && h != p && MovesLatch(s.calls[h])
    ensures GoesWell(s, GenerateStep(s, h), p)
  {
    hide Inv;
  }

  lemma OtherPrepares(s: Good, p: nat, h: nat)
    requires Generating(s, p) && Untroubled(s, p) && h in s.calls && h != p
    requires s.calls[h].Take? || s.calls[h].Check? || s.calls[h].ResetEvent? || s.calls[h].MarkLoading?
    ensures GoesWell(s, GenerateStep(s, h), p)
  {
    hide Inv;
  }

  lemma OtherWaits(s: Good, p: nat, h: nat)
    requires Generating(s, p) && Untroubled(s, p) && h in s.calls && h != p && RoleOf(s.calls[h]).Generates? && !MovesLatch(s.calls[h])
    requires !(s.calls[h].Take? || s.calls[h].Check? || s.calls[h].ResetEvent? || s.calls[h].MarkLoading?)
    ensures GoesWell(s, GenerateStep(s, h), p)
  {
    hide Inv;
  }

  lemma OtherGenerates(s: Good, p: nat, h: nat)
    requires Generating(s, p) && Untroubled(s, p) && h in s.calls && h != p && RoleOf(s.calls[h]).Generates?
    ensures GoesWell(s, GenerateStep(s, h), p)
  {
    hide Inv, GoesWell, Untroubled, GenerateStep;
    if MovesLatch(s.calls[h]) {
      OtherLatches(s, p, h);
    } else if s.calls[h].Take? || s.calls[h].Check? || s.calls[h].ResetEvent? || s.calls[h].MarkLoading? {
      OtherPrepares(s, p, h);
    } else {
      OtherWaits(s, p, h);
    }
  }

  predicate LoadEnding(pc: Pc) { pc.LoadError? || pc.LoadFlag? || pc.LoadSignal? || pc.LoadRelease? }

  lemma OtherLoads(s: Good, p: nat, h: nat)
    requires Generating(s, p) && Untroubled(s, p) && h in s.calls && h != p && RoleOf(s.calls[h]).LoadsBlock? && !LoadEnding(s.calls[h])
    ensures GoesWell(s, LoadStep(s, h), p)
  {
    hide Inv;
    assert !Fails(s.calls[h]);
  }

  lemma OtherEndsLoad(s: Good, p: nat, h: nat)
    requires Generating(s, p) && Untroubled(s, p) && h in s.calls && h != p && LoadEnding(s.calls[h])
    ensures GoesWell(s, LoadStep(s, h), p)
  {
    hide Inv;
    assert !Fails(s.calls[h]);
  }

  predicate ResetEnding(pc: Pc) { pc.ResetNext? || pc.ResetEnd? || pc.ResetRelease? }

  lemma OtherResets(s: Good, p: nat, h: nat)
    requires Generating(s, p) && Untroubled(s, p) && h in s.calls && h != p && RoleOf(s.calls[h]).ResetsCache? && !ResetEnding(s.calls[h])
    ensures GoesWell(s, ResetStep(s, h), p)
  {
    hide Inv;
  }

  lemma OtherEndsReset(s: Good, p: nat, h: nat)
    requires Generating(s, p) && Untroubled(s, p) && h in s.calls && h != p && ResetEnding(s.calls[h])
    ensures GoesWell(s, ResetStep(s, h), p)
  {
    hide Inv;
  }

  lemma OtherPlain(s: Good, p: nat, a: Action)
    requires Generating(s, p) && Untroubled(s, p) && (a.Grant? || (a.Enqueue? && a.p != p))
    ensures GoesWell(s, Step(s, a), p)
  {
    hide Inv, GenerateStep, LoadStep, ResetStep;
  }

  lemma OwnEnqueue(s: Good, p: nat, q: nat)
    requires Generating(s, p) && Untroubled(s, p) && FlagDown(s) && s.calls[p].Queue? && q !in s.calls
    ensures GoesWell(s, Step(s, Enqueue(p, q)), p)
  {
    hide Inv, GenerateStep, LoadStep, ResetStep;
    Latched(s, p);
  }

  lemma OwnCheck(s: Good, p: nat)
    requires OwnNextUp(s, p) && Generating(s, p) && Untroubled(s, p) && FlagDown(s) && s.calls[p].Check?
    ensures GoesWell(s, GenerateStep(s, p), p)
  {
    hide Inv, LoadStep, ResetStep;
    Outstanding(s, p);
  }

  lemma OwnLeave(s: Good, p: nat)
    requires Generating(s, p) && Untroubled(s, p) && s.calls[p].Leave?
    ensures GoesWell(s, GenerateStep(s, p), p)
  {
    hide Inv, LoadStep, ResetStep;
  }

  lemma OwnLatch(s: Good, p: nat)
    requires Generating(s, p) && Untroubled(s, p) && MovesLatch(s.calls[p]) && !s.calls[p].Leave?
    ensures GoesWell(s, GenerateStep(s, p), p)
  {
    hide Inv, LoadStep, ResetStep;
  }

  lemma OwnRest(s: Good, p: nat)
    requires Generating(s, p) && Untroubled(s, p) && !s.calls[p].Check? && !MovesLatch(s.calls[p]) && !s.calls[p].Queue?
    ensures GoesWell(s, GenerateStep(s, p), p)
  {
    hide Inv, LoadStep, ResetStep;
  }

  /** Every step of the schedule goes well for the call. */
  lemma ScheduleGoesWell(s: Good, p: nat)
    requires Generating(s, p) && Untroubled(s, p) && FlagDown(s)
    ensures GoesWell(s, Step(s, Schedule(s, p)), p)
  {
    hide Inv, GenerateStep, LoadStep, ResetStep, GoesWell, FlagDown, Untroubled;
    Latched(s, p);
    ScheduleEnabled(s, p);
    var a := Schedule(s, p);
    if a.Move? {
      var h := a.p;
      MoveIsStep(s, h);
      if h != p {
        match RoleOf(s.calls[h])
        case Generates => OtherGenerates(s, p, h);
        case LoadsBlock =>
          if LoadEnding(s.calls[h]) {
            OtherEndsLoad(s, p, h);
          } else {
            OtherLoads(s, p, h);
          }
        case ResetsCache =>
          if ResetEnding(s.calls[h]) {
            OtherEndsReset(s, p, h);
          } else {
            OtherResets(s, p, h);
          }
      } else if s.calls[p].Check? {
        OwnCheck(s, p);
      } else if s.calls[p].Leave? {
        OwnLeave(s, p);
      } else if MovesLatch(s.calls[p]) {
        OwnLatch(s, p);
      } else {
        OwnRest(s, p);
      }
    } else if a.Enqueue? && a.p == p {
      OwnEnqueue(s, p, a.worker);
    } else {
      OtherPlain(s, p, a);
    }
  }

  lemma {:induction false} CanReturn(s: Good, p: nat) returns (more: seq<Action>)
    requires Generating(s, p) && Untroubled(s, p) && FlagDown(s)
    ensures NothingNew(more) && Returned(s, Run(s, more), p)
    decreases Rank(s, p)
  {
    hide Inv, Step, Schedule, Rank, FlagDown, Untroubled;
    var a := Schedule(s, p);
    RankFalls(s, p);
    ScheduleEnabled(s, p);
    ScheduleGoesWell(s, p);
    StepFlag(s, a);
    var s' := StepKeeps(s, a);
    var rest := [];
    if !JustReturned(s, s', p) {
      rest := CanReturn(s', p);
    }
    more := [a] + rest;
    RunCons(s, a, rest);
    assert Run(s', []) == s';
  }

  /** The call has finished with an ID, and that is the last one returned, after those returned
      before. */
  ghost predicate Returned(s: State, s': State, p: nat) {
    && p in s'.calls && s'.calls[p].Finished? && s'.calls[p].out.Return?
    && |s.returned| < |s'.returned| && s.returned <= s'.returned
    && s'.returned[|s'.returned| - 1] == s'.calls[p].out.id
  }

  /** After any run, a Generate call that is not troubled by a failed load can still return an
      ID, the newest, by steps of calls that are under way. */
  lemma UntroubledCallReturns(k: Params, stored: int, actions: seq<Action>, p: nat) returns (more: seq<Action>)
    requires ValidParams(k) && 1 <= stored
    requires Generating(Run(Init(k, stored), actions), p) && Untroubled(Run(Init(k, stored), actions), p)
    ensures NothingNew(more) && Returned(Run(Init(k, stored), actions), Run(Run(Init(k, stored), actions), more), p)
  {
    hide Inv, History, Run, FlagDown, Untroubled;
    var s := RunKeeps(k, stored, actions);
    RunFlag(k, stored, actions);
    more := CanReturn(s, p);
  }

  // --- A call that waits for a failed load throws ---

  /** The call waits for a load that has failed, or has seen it. */
  ghost predicate Condemned(s: State, p: nat) {
    && p in s.calls && !Foreign(s, p)
    && (|| s.calls[p] == Leave(Throw)
        || (s.calls[p].TestError? && s.failed)
        || (Awaits(s.calls[p]) && !s.calls[p].TestError? && Doomed(s)))
  }

  lemma OwnCondemned(s: Good, p: nat)
    requires OwnNextUp(s, p) && Condemned(s, p)
    ensures var s' := GenerateStep(s, p);
            p in s'.calls && (s'.calls[p] == Finished(Throw) || Condemned(s', p))
  {
    hide Inv, LoadStep, ResetStep;
    Outstanding(s, p);
  }

  lemma LoadCondemned(s: State, s': State, l: nat, p: nat)
    requires LoadsOn(s, s', l) && p != l && Condemned(s, p) && !Holds(s.calls[p])
    ensures Condemned(s', p)
  {
    hide Doomed, Hopeful, LoadPart;
  }

  lemma ScheduleCondemned(s: Good, p: nat)
    requires Condemned(s, p)
    ensures var s' := Step(s, Schedule(s, p));
            p in s'.calls && (s'.calls[p] == Finished(Throw) || Condemned(s', p))
  {
    hide Inv, GenerateStep, LoadStep, ResetStep, Doomed, Hopeful, LoadPart;
    Latched(s, p);
    ScheduleEnabled(s, p);
    if OwnNextUp(s, p) {
      MoveIsStep(s, p);
      OwnCondemned(s, p);
    } else {
      var l := if s.owner.Some? then s.owner.value else s.loader.value;
      Latched(s, l);
      LoadMoves(s, p, l);
      LoadCondemned(s, Step(s, Schedule(s, p)), l, p);
    }
  }

  lemma {:induction false} CanThrow(s: Good, p: nat) returns (more: seq<Action>)
    requires Condemned(s, p)
    ensures NothingNew(more) && p in Run(s, more).calls && Run(s, more).calls[p] == Finished(Throw)
    decreases Rank(s, p)
  {
    hide Inv, Step, Schedule, Rank, Doomed;
    var a := Schedule(s, p);
    RankFalls(s, p);
    ScheduleEnabled(s, p);
    ScheduleCondemned(s, p);
    var s' := StepKeeps(s, a);
    var rest := [];
    if s'.calls[p] != Finished(Throw) {
      rest := CanThrow(s', p);
    }
    more := [a] + rest;
    RunCons(s, a, rest);
    assert Run(s', []) == s';
  }

  /** After any run, a call that waits for a load that has failed, while nobody else holds the
      latch, can still throw, by steps of calls that are under way. */
  lemma CondemnedCallThrows(k: Params, stored: int, actions: seq<Action>, p: nat) returns (more: seq<Action>)
    requires ValidParams(k) && 1 <= stored && Condemned(Run(Init(k, stored), actions), p)
    ensures NothingNew(more)
    ensures var s := Run(Run(Init(k, stored), actions), more);
            p in s.calls && s.calls[p] == Finished(Throw)
  {
    hide Inv, History, Run, Condemned;
    var s := RunKeeps(k, stored, actions);
    more := CanThrow(s, p);
  }

  // --- ResetCache empties the window, and loads are started in time ---

  /** A reset that is about to release the latch has emptied the window. */
  ghost predicate EmptiedBy(s: State, pc: Pc) {
    (pc.ResetEnd? ==> s.next == 0) && (pc == ResetRelease(false) ==> s.next == 0 && s.end == 0)
  }

  /** A call that leaves fewer IDs than the threshold behind leaves a load outstanding. */
  ghost predicate Provides(s: State, pc: Pc) {
    && (pc.OutOfIds? ==> s.loader.Some?)
    && (pc.Leave? && pc.out.Return? && s.end - s.next < s.k.threshold ==> s.loader.Some?)
  }

  ghost predicate Tidy(s: State) {
    s.owner.Some? && s.owner.value in s.calls ==>
      EmptiedBy(s, s.calls[s.owner.value]) && Provides(s, s.calls[s.owner.value])
  }

  lemma LatchTidy(s: Good, p: nat)
    requires Tidy(s) && p in s.calls && Enabled(s, Move(p)) && MovesLatch(s.calls[p])
    ensures Tidy(GenerateStep(s, p))
  {
    hide Inv, LoadStep, ResetStep;
    Latched(s, p);
  }

  lemma GenerateTidy(s: Good, p: nat)
    requires Tidy(s) && p in s.calls && Enabled(s, Move(p)) && RoleOf(s.calls[p]).Generates? && !MovesLatch(s.calls[p])
    ensures Tidy(GenerateStep(s, p))
  {
    hide Inv, LoadStep, ResetStep;
    Latched(s, p);
  }

  lemma LoadTidy(s: Good, p: nat)
    requires Tidy(s) && p in s.calls && Enabled(s, Move(p)) && RoleOf(s.calls[p]).LoadsBlock?
    ensures Tidy(LoadStep(s, p))
  {
    hide Inv, GenerateStep, ResetStep;
    Latched(s, p);
  }

  lemma ResetTidy(s: Good, p: nat)
    requires Tidy(s) && p in s.calls && Enabled(s, Move(p)) && RoleOf(s.calls[p]).ResetsCache?
    ensures Tidy(ResetStep(s, p))
  {
    hide Inv, GenerateStep, LoadStep;
    Latched(s, p);
  }

  lemma OtherTidy(s: Good, a: Action)
    requires Tidy(s) && !a.Move? && Enabled(s, a)
    ensures Tidy(Step(s, a))
  {
    hide Inv, GenerateStep, LoadStep, ResetStep;
    if a.p in s.calls {
      Latched(s, a.p);
    }
    if s.owner.Some? && s.owner.value in s.calls {
      Latched(s, s.owner.value);
    }
  }

  lemma StepTidy(s: Good, a: Action)
    requires Tidy(s)
    ensures Tidy(Step(s, a))
  {
    hide Inv, GenerateStep, LoadStep, ResetStep, Tidy;
    if a.Move? && Enabled(s, a) {
      MoveIsStep(s, a.p);
      match RoleOf(s.calls[a.p])
      case Generates =>
        if MovesLatch(s.calls[a.p]) {
          LatchTidy(s, a.p);
        } else {
          GenerateTidy(s, a.p);
        }
      case LoadsBlock => LoadTidy(s, a.p);
      case ResetsCache => ResetTidy(s, a.p);
    } else if Enabled(s, a) {
      OtherTidy(s, a);
    }
  }

  lemma {:induction false} RunTidy(k: Params, stored: int, actions: seq<Action>)
    requires ValidParams(k) && 1 <= stored
    ensures Tidy(Run(Init(k, stored), actions))
    decreases |actions|
  {
    hide Inv, Step, History;
    if actions != [] {
      var n := |actions| - 1;
      RunTidy(k, stored, actions[..n]);
      var before := RunKeeps(k, stored, actions[..n]);
      StepTidy(before, actions[n]);
    }
  }

  /** In every run, when ResetCache releases the latch for good the window is empty, so that the
      next ID comes from a block loaded later. */
  lemma ResetEmpties(k: Params, stored: int, actions: seq<Action>, p: nat)
    requires ValidParams(k) && 1 <= stored
    requires p in Run(Init(k, stored), actions).calls && Run(Init(k, stored), actions).calls[p] == ResetRelease(false)
    ensures var s := Run(Init(k, stored), actions);
            s.next == 0 && s.end == 0
  {
    hide Inv, History, Run;
    var s := RunKeeps(k, stored, actions);
    Latched(s, p);
    RunTidy(k, stored, actions);
  }

  /** In every run, a call that is about to return an ID and leaves fewer than the threshold
      behind leaves a load outstanding. */
  lemma LoadsInTime(k: Params, stored: int, actions: seq<Action>, p: nat, id: int)
    requires ValidParams(k) && 1 <= stored
    requires p in Run(Init(k, stored), actions).calls && Run(Init(k, stored), actions).calls[p] == Leave(Return(id))
    ensures var s := Run(Init(k, stored), actions);
            s.end - s.next < k.threshold ==> exists q :: q in s.calls && Loads(s.calls[q])
  {
    hide Inv, History, Run;
    var s := RunKeeps(k, stored, actions);
    Latched(s, p);
    RunTidy(k, stored, actions);
    RunParams(Init(k, stored), actions);
    if s.loader.Some? {
      assert s.loader.value in s.calls && Loads(s.calls[s.loader.value]);
    }
  }
}
