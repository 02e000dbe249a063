/** Which syntax errors are reported: the first of a parse, and every later one that comes
    after enough shifts. */
module LemparErrors {
  import opened Options
  import opened LemparTables
  import opened LemparMachine
  import opened LemparSoundness
  import opened LemparTheorems

  /** The iteration is a syntax error. */
  ghost predicate Errs(t: Tables, m: Machine)
    requires WellFormed(t)
  {
    && m.work.Some? && CanIterate(t, m.st, m.work.value)
    && FindShiftAction(t, Top(m.st).state, m.work.value.major) >= ErrorAction(t)
  }

  ghost predicate ShiftsNext(t: Tables, m: Machine)
    requires WellFormed(t)
  {
    && m.work.Some? && CanIterate(t, m.st, m.work.value)
    && FindShiftAction(t, Top(m.st).state, m.work.value.major) < t.nstate
  }

  /** The shifts since the last syntax error of the present parse, reported or not; None if
      there was none. */
  ghost function Quiet(t: Tables, m0: Machine, actions: seq<Action>): Option<nat>
    requires WellFormed(t)
    decreases |actions|
  {
    if actions == [] then None
    else
      var n := |actions| - 1;
      var before, q := Run(t, m0, actions[..n]), Quiet(t, m0, actions[..n]);
      if before.None? then q
      else
        var m := before.value;
        match actions[n]
        case Feed(tok) => if m.work.None? && tok.major < t.nterm && m.st.stack == [] then None else q
        case Go(_) =>
          if Errs(t, m) then Some(0)
          else if ShiftsNext(t, m) && q.Some? then Some(q.value + 1)
          else q
  }

  /** The error counter counts the shifts since the last error down from three; before the
      first error it is negative. */
  ghost predicate Counts(t: Tables, st: State, q: Option<nat>) {
    st.stack != [] && !t.mode.NoRecovery? ==> if q.Some? then st.errcnt == 3 - q.value else st.errcnt < 0
  }

  lemma ErrorCounts(t: Tables, st: State, tok: Token, hit: bool, alloc: bool)
    requires WellFormed(t) && st.stack != []
    requires forall k :: 0 <= k < |st.stack| ==> st.stack[k].state < t.nstate
    ensures Counts(t, HandleError(t, st, tok, hit, alloc).st, Some(0))
  {
    hide WellFormed, FindReduceAction;
  }

  lemma IterateCounts(t: Tables, m: Machine, alloc: bool, q: Option<nat>)
    requires WellFormed(t) && m.work.Some? && CanIterate(t, m.st, m.work.value) && Counts(t, m.st, q)
    ensures var r := Iterate(t, m.st, m.work.value, m.hit, alloc);
            Counts(t, r.st, if Errs(t, m) then Some(0) else if ShiftsNext(t, m) && q.Some? then Some(q.value + 1) else q)
  {
    hide WellFormed, FindShiftAction, FindReduceAction, HandleError;
    if Errs(t, m) {
      ErrorCounts(t, m.st, m.work.value, m.hit, alloc);
    }
  }

  lemma {:induction false} RunCounts(g: Grammar, t: Tables, c: Certificate, alloc: bool, actions: seq<Action>)
    requires Consistent(g, t, c)
    ensures var r := Run(t, Init(t, alloc), actions);
            r.Some? && MachineInv(g, t, c, r.value) && Counts(t, r.value.st, Quiet(t, Init(t, alloc), actions))
    decreases |actions|
  {
    hide Iterate, CanIterate, Counts, Inv, Errs, ShiftsNext;
    RunSafe(g, t, c, alloc, actions);
    if actions == [] {
      NothingCounted(t, alloc);
    } else {
      var n := |actions| - 1;
      RunCounts(g, t, c, alloc, actions[..n]);
      var m := Run(t, Init(t, alloc), actions[..n]).value;
      var q := Quiet(t, Init(t, alloc), actions[..n]);
      match actions[n]
      case Feed(tok) => EnterCounts(t, m.st, q);
      case Go(a) =>
        if m.work.Some? {
          IterateAllowed(g, t, c, m.st, m.work.value);
          IterateCounts(t, m, a, q);
        } else {
          IdleNeither(t, m);
        }
    }
  }

  lemma NothingCounted(t: Tables, alloc: bool)
    ensures Counts(t, Init(t, alloc).st, None)
  {
  }

  lemma IdleNeither(t: Tables, m: Machine)
    requires WellFormed(t) && m.work.None?
    ensures !Errs(t, m) && !ShiftsNext(t, m)
  {
  }

  lemma EnterCounts(t: Tables, st: State, q: Option<nat>)
    requires 0 < t.nstate && Counts(t, st, q)
    ensures Counts(t, Enter(t, st).st, if st.stack == [] then None else q)
  {
  }

  /** The first thing the iteration tells is a report of the token. */
  predicate Reports(before: seq<Event>, after: seq<Event>, tok: Token) {
    |before| < |after| && after[|before|] == Report(tok)
  }

  lemma {:induction false} PopsOnly(t: Tables, st: State)
    requires WellFormed(t) && t.mode.ErrorSymbol?
    requires forall k :: 0 <= k < |st.stack| ==> st.stack[k].state < t.nstate
    ensures var r := PopToError(t, st);
            st.log <= r.log && forall k :: |st.log| <= k < |r.log| ==> r.log[k].Pop?
    decreases |st.stack|
  {
    hide WellFormed, FindReduceAction;
    if st.stack != [] && FindReduceAction(t, Top(st).state, t.mode.symbol) >= t.nstate {
      PopsOnly(t, PopOne(st));
    }
  }

  /** Popping for the error symbol takes away no entry that could have shifted it. */
  lemma {:induction false} PopsNoFurther(t: Tables, st: State, k: nat)
    requires WellFormed(t) && t.mode.ErrorSymbol?
    requires forall i :: 0 <= i < |st.stack| ==> st.stack[i].state < t.nstate
    requires |PopToError(t, st).stack| <= k < |st.stack|
    ensures FindReduceAction(t, st.stack[k].state, t.mode.symbol) >= t.nstate
    decreases |st.stack|
  {
    hide WellFormed, FindReduceAction;
    if k < |st.stack| - 1 {
      PopsNoFurther(t, PopOne(st), k);
    }
  }

  lemma RecoverTells(t: Tables, told: State, tok: Token, alloc: bool)
    requires WellFormed(t) && t.mode.ErrorSymbol?
    requires forall k :: 0 <= k < |told.stack| ==> told.stack[k].state < t.nstate
    ensures var r := Recover(t, told, tok, alloc).st;
            told.log <= r.log && !Reports(told.log, r.log, tok)
  {
    hide WellFormed, FindReduceAction, PopToError;
    PopsOnly(t, told);
  }

  /** What the handling of an error tells, by the counter. */
  lemma ErrorTells(t: Tables, st: State, tok: Token, hit: bool, alloc: bool)
    requires WellFormed(t) && st.stack != []
    requires forall k :: 0 <= k < |st.stack| ==> st.stack[k].state < t.nstate
    ensures Reports(st.log, HandleError(t, st, tok, hit, alloc).st.log, tok)
            <==> match t.mode case NoRecovery => true case Plain => st.errcnt <= 0 case ErrorSymbol(_) => st.errcnt < 0
  {
    hide WellFormed, FindReduceAction, Recover;
    if t.mode.ErrorSymbol? && Top(st).major != t.mode.symbol && !hit {
      RecoverTells(t, (if st.errcnt < 0 then Emit(st, [Report(tok)]) else st).(errcnt := 3), tok, alloc);
    }
  }

  /** In every run, a syntax error is reported exactly if it is the first of its parse, or at
      least `Gap` shifts have followed the last one, reported or not; without recovery every
      error is. */
  lemma ReportedIff(g: Grammar, t: Tables, c: Certificate, alloc: bool, actions: seq<Action>, again: bool)
    requires Consistent(g, t, c)
    requires Run(t, Init(t, alloc), actions).Some? && Errs(t, Run(t, Init(t, alloc), actions).value)
    ensures var m, q := Run(t, Init(t, alloc), actions).value, Quiet(t, Init(t, alloc), actions);
            Reports(m.st.log, Iterate(t, m.st, m.work.value, m.hit, again).st.log, m.work.value)
            <==> t.mode.NoRecovery? || q.None? || q.value >= Gap(t)
  {
    hide WellFormed, FindShiftAction, FindReduceAction, HandleError, Run, Quiet, Reports;
    RunCounts(g, t, c, alloc, actions);
    var m := Run(t, Init(t, alloc), actions).value;
    ErrorTells(t, m.st, m.work.value, m.hit, again);
  }

  // --- How a parse ends ---

  predicate Ending(e: Event) { e.Accept? || e.Fail? || e.Overflow? }

  /** The stack is emptied exactly when the iteration tells, last, that the input was accepted,
      that the parse failed, or that the stack overflowed. */
  ghost predicate Told(before: State, after: State) {
    && before.log <= after.log
    && (after.stack == [] <==> |before.log| < |after.log| && Ending(after.log[|after.log| - 1]))
  }

  lemma PushTells(t: Tables, st: State, e: Entry, alloc: bool)
    ensures var r := Push(t, st, e, alloc);
            if r.stack == [] then r.log == st.log + [Overflow] else r.log == st.log
  {
  }

  lemma RecoverEnds(t: Tables, told: State, tok: Token, alloc: bool)
    requires WellFormed(t) && t.mode.ErrorSymbol?
    requires forall k :: 0 <= k < |told.stack| ==> told.stack[k].state < t.nstate
    ensures Told(told, Recover(t, told, tok, alloc).st)
    ensures tok.major == 0 ==> Recover(t, told, tok, alloc).st.stack == []
  {
    hide WellFormed, FindReduceAction, PopToError, Push;
    PopsOnly(t, told);
    var popped := PopToError(t, told);
    if popped.stack != [] && tok.major != 0 {
      PushTells(t, popped, Entry(FindReduceAction(t, Top(popped).state, t.mode.symbol), t.mode.symbol, ErrorMark), alloc);
    }
  }

  lemma ErrorEnds(t: Tables, st: State, tok: Token, hit: bool, alloc: bool)
    requires WellFormed(t) && st.stack != []
    requires forall k :: 0 <= k < |st.stack| ==> st.stack[k].state < t.nstate
    ensures Told(st, HandleError(t, st, tok, hit, alloc).st)
  {
    hide WellFormed, FindReduceAction, Recover;
    if t.mode.ErrorSymbol? && Top(st).major != t.mode.symbol && !hit {
      var told := (if st.errcnt < 0 then Emit(st, [Report(tok)]) else st).(errcnt := 3);
      RecoverEnds(t, told, tok, alloc);
    }
  }

  /** Every iteration of every run tells how the parse ended exactly if it ended. */
  lemma IterateEnds(t: Tables, st: State, tok: Token, hit: bool, alloc: bool)
    requires WellFormed(t) && CanIterate(t, st, tok)
    ensures Told(st, Iterate(t, st, tok, hit, alloc).st)
  {
    hide WellFormed, FindShiftAction, FindReduceAction, HandleError, Push;
    var act := FindShiftAction(t, Top(st).state, tok.major);
    if act < t.nstate {
      PushTells(t, st, Entry(act, tok.major, Leaf(tok)), alloc);
    } else if act < ErrorAction(t) {
      ReduceEnds(t, st, act - t.nstate, alloc);
    } else {
      ErrorEnds(t, st, tok, hit, alloc);
    }
  }

  lemma ReduceEnds(t: Tables, st: State, r: nat, alloc: bool)
    requires WellFormed(t) && CanReduce(t, st, r)
    ensures Told(st, Reduce(t, st, r, alloc))
  {
    hide WellFormed, FindReduceAction, Push;
    var k := |st.stack| - t.ruleInfo[r].nrhs;
    var base := st.(stack := st.stack[..k]);
    var act := FindReduceAction(t, Top(base).state, t.ruleInfo[r].lhs);
    if act < t.nstate {
      PushTells(t, base, Entry(act, t.ruleInfo[r].lhs, Node(r, Minors(st.stack[k..]))), alloc);
    }
  }
}
