/** When the do-while loop of Parse ends.  What an iteration does depends only on the states
    on the stack, on whether the error symbol is on top, and on yyerrorhit; so the loop ends
    exactly when that control never repeats and the stack stays below some height. */
module LemparTermination {
  import opened Options
  import opened LemparTables
  import opened LemparMachine
  import opened LemparTheorems
  import opened LemparDriver

  datatype Control = Control(states: seq<nat>, onError: bool, hit: bool)

  function States(stack: seq<Entry>): (r: seq<nat>)
    ensures |r| == |stack|
  {
    seq(|stack|, i requires 0 <= i < |stack| => stack[i].state)
  }

  predicate OnError(t: Tables, st: State) {
    t.mode.ErrorSymbol? && st.stack != [] && Top(st).major == t.mode.symbol
  }

  function ControlOf(t: Tables, m: Machine): Control {
    Control(States(m.st.stack), OnError(t, m.st), m.hit)
  }

  // --- An iteration is a function of the control ---

  /** The allocator is not asked, or it delivers. */
  predicate Answered(t: Tables, alloc: bool) { t.stackDepth > 0 || alloc }

  /** Two states whose iterations cannot be told apart by what they push and pop. */
  ghost predicate Alike(t: Tables, a: State, b: State) {
    Bounded(t, a) && Bounded(t, b) && States(a.stack) == States(b.stack)
  }

  lemma SameHeight(t: Tables, a: State, b: State)
    requires Alike(t, a, b)
    ensures |a.stack| == |b.stack|
    ensures a.stack != [] ==> Top(a).state == Top(b).state
  {
    assert |a.stack| == |States(a.stack)| == |b.stack|;
    if a.stack != [] {
      assert States(a.stack)[|a.stack| - 1] == States(b.stack)[|a.stack| - 1];
    }
  }

  lemma PushAlike(t: Tables, a: State, b: State, d: Entry, e: Entry, x: bool, y: bool)
    requires Alike(t, a, b) && Answered(t, x) && Answered(t, y) && d.state == e.state
    ensures States(Push(t, a, d, x).stack) == States(Push(t, b, e, y).stack)
    ensures Push(t, a, d, x).stack == [] <==> Push(t, b, e, y).stack == []
    ensures Push(t, a, d, x).stack != [] ==> Top(Push(t, a, d, x)) == d && Top(Push(t, b, e, y)) == e
  {
    var p, q := Push(t, a, d, x), Push(t, b, e, y);
    assert |a.stack| == |States(a.stack)| == |b.stack|;
    if p.stack != [] {
      assert q.stack != [];
      assert States(p.stack) == States(a.stack) + [d.state];
      assert States(q.stack) == States(b.stack) + [e.state];
    }
  }

  lemma CutAlike(t: Tables, a: State, b: State, k: nat)
    requires Alike(t, a, b) && k <= |a.stack|
    ensures k <= |b.stack| && Alike(t, a.(stack := a.stack[..k]), b.(stack := b.stack[..k]))
    ensures States(a.stack[..k]) == States(a.stack)[..k]
    ensures k > 0 ==> a.stack[k - 1].state == b.stack[k - 1].state
  {
    assert |a.stack| == |States(a.stack)| == |b.stack|;
    assert States(a.stack[..k]) == States(a.stack)[..k];
    assert States(b.stack[..k]) == States(b.stack)[..k];
    if k > 0 {
      assert States(a.stack)[k - 1] == States(b.stack)[k - 1];
    }
  }

  lemma ReduceAlike(t: Tables, a: State, b: State, r: nat, x: bool, y: bool)
    requires WellFormed(t) && CanReduce(t, a, r) && CanReduce(t, b, r)
    requires Alike(t, a, b) && Answered(t, x) && Answered(t, y)
    ensures var p, q := Reduce(t, a, r, x), Reduce(t, b, r, y);
            && States(p.stack) == States(q.stack) && (p.stack == [] <==> q.stack == [])
            && OnError(t, p) == OnError(t, q)
  {
    hide FindReduceAction, WellFormed, Push, Alike;
    var n := t.ruleInfo[r].nrhs;
    SameHeight(t, a, b);
    var k := |a.stack| - n;
    CutAlike(t, a, b, k);
    var c, d := a.(stack := a.stack[..k]), b.(stack := b.stack[..k]);
    var act := FindReduceAction(t, Top(c).state, t.ruleInfo[r].lhs);
    if act < t.nstate {
      PushAlike(t, c, d, Entry(act, t.ruleInfo[r].lhs, Node(r, Minors(a.stack[k..]))),
                Entry(act, t.ruleInfo[r].lhs, Node(r, Minors(b.stack[k..]))), x, y);
    }
  }

  lemma {:induction false} PopAlike(t: Tables, a: State, b: State)
    requires WellFormed(t) && t.mode.ErrorSymbol? && Alike(t, a, b)
    requires forall k :: 0 <= k < |a.stack| ==> a.stack[k].state < t.nstate
    requires forall k :: 0 <= k < |b.stack| ==> b.stack[k].state < t.nstate
    ensures Alike(t, PopToError(t, a), PopToError(t, b))
    decreases |a.stack|
  {
    hide FindReduceAction, WellFormed, Bounded;
    SameHeight(t, a, b);
    if a.stack != [] && FindReduceAction(t, Top(a).state, t.mode.symbol) >= t.nstate {
      CutAlike(t, a, b, |a.stack| - 1);
      PopBounded(t, a);
      PopBounded(t, b);
      PopAlike(t, PopOne(a), PopOne(b));
    }
  }

  lemma PopBounded(t: Tables, a: State)
    requires a.stack != [] && Bounded(t, a)
    ensures Bounded(t, PopOne(a))
  {
  }

  lemma RecoverAlike(t: Tables, a: State, b: State, tok: Token, x: bool, y: bool)
    requires WellFormed(t) && t.mode.ErrorSymbol? && Alike(t, a, b) && Answered(t, x) && Answered(t, y)
    requires forall k :: 0 <= k < |a.stack| ==> a.stack[k].state < t.nstate
    requires forall k :: 0 <= k < |b.stack| ==> b.stack[k].state < t.nstate
    ensures SameOutcome(t, Recover(t, a, tok, x), Recover(t, b, tok, y))
  {
    hide FindReduceAction, WellFormed, Push, Alike, PopToError;
    var p, q := PopToError(t, a), PopToError(t, b);
    PopAlike(t, a, b);
    SameHeight(t, p, q);
    if p.stack != [] && tok.major != 0 {
      var e := Entry(FindReduceAction(t, Top(p).state, t.mode.symbol), t.mode.symbol, ErrorMark);
      PushAlike(t, p, q, e, e, x, y);
    }
  }

  ghost predicate SameOutcome(t: Tables, a: Result, b: Result) {
    && a.hit == b.hit && a.done == b.done
    && (!a.done ==> States(a.st.stack) == States(b.st.stack) && OnError(t, a.st) == OnError(t, b.st))
  }

  lemma ErrorAlike(t: Tables, a: State, b: State, tok: Token, hit: bool, x: bool, y: bool)
    requires WellFormed(t) && Alike(t, a, b) && Answered(t, x) && Answered(t, y)
    requires a.stack != [] && b.stack != [] && OnError(t, a) == OnError(t, b)
    requires forall k :: 0 <= k < |a.stack| ==> a.stack[k].state < t.nstate
    requires forall k :: 0 <= k < |b.stack| ==> b.stack[k].state < t.nstate
    ensures SameOutcome(t, HandleError(t, a, tok, hit, x), HandleError(t, b, tok, hit, y))
  {
    hide WellFormed, Recover;
    if t.mode.ErrorSymbol? && !OnError(t, a) && !hit {
      var c := (if a.errcnt < 0 then Emit(a, [Report(tok)]) else a).(errcnt := 3);
      var d := (if b.errcnt < 0 then Emit(b, [Report(tok)]) else b).(errcnt := 3);
      RecoverAlike(t, c, d, tok, x, y);
    }
  }

  /** One iteration from two states of equal control: both end the loop or neither does,
      and if it goes on, the control is equal again. */
  lemma IterateAlike(t: Tables, a: State, b: State, tok: Token, hit: bool, x: bool, y: bool)
    requires WellFormed(t) && CanIterate(t, a, tok) && CanIterate(t, b, tok)
    requires Alike(t, a, b) && OnError(t, a) == OnError(t, b) && Answered(t, x) && Answered(t, y)
    ensures SameOutcome(t, Iterate(t, a, tok, hit, x), Iterate(t, b, tok, hit, y))
  {
    hide WellFormed, FindShiftAction, Push, Reduce, HandleError, Alike, OnError;
    SameHeight(t, a, b);
    var act := FindShiftAction(t, Top(a).state, tok.major);
    if t.nstate <= act < ErrorAction(t) {
      ReduceAlike(t, a, b, act - t.nstate, x, y);
    } else if act >= ErrorAction(t) {
      ErrorAlike(t, a, b, tok, hit, x, y);
    }
  }

  // --- The loop of one Parse call ---

  /** A Parse call in progress: the run that led to it, and whether realloc would succeed in
      each of its iterations. */
  datatype Call = Call(t: Tables, first: bool, past: seq<Action>, allocs: nat -> bool)

  function Answers(allocs: nat -> bool, k: nat): (r: seq<bool>)
    ensures |r| == k
  {
    seq(k, i requires 0 <= i => allocs(i))
  }

  /** The machine after `k` iterations. */
  ghost function At(l: Call, k: nat): Machine
    requires WellFormed(l.t)
  {
    var r := Run(l.t, Init(l.t, l.first), l.past + Goes(Answers(l.allocs, k)));
    if r.Some? then r.value else Init(l.t, l.first)
  }

  ghost predicate Working(l: Call, k: nat)
    requires WellFormed(l.t)
  {
    At(l, k).work.Some?
  }

  /** Iterations `i` and `j` start from the same control. */
  ghost predicate Cycle(l: Call, i: nat, j: nat)
    requires WellFormed(l.t)
  {
    i < j && Working(l, i) && Working(l, j) && ControlOf(l.t, At(l, i)) == ControlOf(l.t, At(l, j))
  }

  /** The stack never holds more than `n` entries. */
  ghost predicate Below(l: Call, n: nat)
    requires WellFormed(l.t)
  {
    forall k: nat :: |At(l, k).st.stack| <= n
  }

  ghost predicate Ends(l: Call)
    requires WellFormed(l.t)
  {
    exists k :: !Working(l, k)
  }

  lemma Next(g: Grammar, c: Certificate, l: Call, k: nat)
    requires Consistent(g, l.t, c)
    ensures Bounded(l.t, At(l, k).st)
    ensures !Working(l, k) ==> At(l, k + 1) == At(l, k)
    ensures Working(l, k) ==> CanIterate(l.t, At(l, k).st, At(l, k).work.value)
    ensures Working(l, k) ==>
              var m := At(l, k);
              var r := Iterate(l.t, m.st, m.work.value, m.hit, l.allocs(k));
              At(l, k + 1) == Machine(r.st, if r.done then None else m.work, r.hit)
  {
    hide Run, WellFormed, CanIterate, Iterate, Bounded, Init;
    var before := l.past + Goes(Answers(l.allocs, k));
    var more := Answers(l.allocs, k + 1);
    assert more[..k] == Answers(l.allocs, k) && more[..k + 1] == more;
    GoesSnoc(more, k);
    assert l.past + Goes(more) == before + [Go(l.allocs(k))];
    RunSnoc(l.t, Init(l.t, l.first), before, Go(l.allocs(k)));
    RunReady(g, l.t, c, l.first, before);
  }

  lemma {:induction false} StaysIdle(g: Grammar, c: Certificate, l: Call, i: nat, j: nat)
    requires Consistent(g, l.t, c) && i <= j && !Working(l, i)
    ensures At(l, j) == At(l, i)
    decreases j
  {
    hide At, Iterate, CanIterate, WellFormed, Bounded;
    if i < j {
      StaysIdle(g, c, l, i, j - 1);
      Next(g, c, l, j - 1);
    }
  }

  lemma {:induction false} SameToken(g: Grammar, c: Certificate, l: Call, k: nat)
    requires Consistent(g, l.t, c) && Working(l, k)
    ensures At(l, k).work == At(l, 0).work
  {
    hide At, Iterate, CanIterate, WellFormed;
    if k > 0 {
      Next(g, c, l, k - 1);
      SameToken(g, c, l, k - 1);
    }
  }

  /** From equal controls the loop goes on in lockstep. */
  lemma {:induction false} Lockstep(g: Grammar, c: Certificate, l: Call, i: nat, j: nat, n: nat)
    requires Consistent(g, l.t, c) && Cycle(l, i, j) && forall k: nat :: Answered(l.t, l.allocs(k))
    ensures Working(l, i + n) <==> Working(l, j + n)
    ensures Working(l, i + n) ==> ControlOf(l.t, At(l, i + n)) == ControlOf(l.t, At(l, j + n))
    decreases n
  {
    hide At, Iterate, CanIterate, WellFormed, Bounded, OnError;
    if n > 0 {
      Lockstep(g, c, l, i, j, n - 1);
      Next(g, c, l, i + n - 1);
      Next(g, c, l, j + n - 1);
      if Working(l, i + n - 1) {
        SameToken(g, c, l, i + n - 1);
        SameToken(g, c, l, j + n - 1);
        var a, b := At(l, i + n - 1), At(l, j + n - 1);
        IterateAlike(l.t, a.st, b.st, a.work.value, a.hit, l.allocs(i + n - 1), l.allocs(j + n - 1));
      }
    }
  }

  lemma {:induction false} CycleGoesOn(g: Grammar, c: Certificate, l: Call, i: nat, j: nat, k: nat)
    requires Consistent(g, l.t, c) && Cycle(l, i, j) && forall n: nat :: Answered(l.t, l.allocs(n))
    ensures Working(l, k)
    decreases k
  {
    hide At, WellFormed;
    if k <= j {
      if !Working(l, k) {
        StaysIdle(g, c, l, k, j);
      }
    } else {
      CycleGoesOn(g, c, l, i, j, k - (j - i));
      Lockstep(g, c, l, i, j, k - j);
    }
  }

  // --- Finitely many controls ---

  /** Every list of at most `n` numbers below `b`. */
  ghost function Lists(b: nat, n: nat): set<seq<nat>> {
    if n == 0 then {[]}
    else {[]} + set s, x | s in Lists(b, n - 1) && x in Codes(b) :: s + [x]
  }

  ghost function Codes(b: nat): (r: set<nat>)
    ensures forall x: nat :: x in r <==> x < b
  {
    if b == 0 then {} else Codes(b - 1) + {b - 1}
  }

  lemma {:induction false} ListsHold(b: nat, n: nat, s: seq<nat>)
    requires |s| <= n && forall i :: 0 <= i < |s| ==> s[i] < b
    ensures s in Lists(b, n)
  {
    if s != [] {
      var k := |s| - 1;
      ListsHold(b, n - 1, s[..k]);
      assert s[k] in Codes(b);
      assert s == s[..k] + [s[k]];
    }
  }

  ghost function Controls(b: nat, n: nat): set<Control> {
    set s, e, h | s in Lists(b, n) && e in {false, true} && h in {false, true} :: Control(s, e, h)
  }

  lemma {:induction false} DistinctFits<T>(s: seq<T>, u: set<T>)
    requires forall i, j :: 0 <= i < j < |s| ==> s[i] != s[j]
    requires forall i :: 0 <= i < |s| ==> s[i] in u
    ensures |s| <= |u|
  {
    if s != [] {
      var k := |s| - 1;
      DistinctFits(s[..k], u - {s[k]});
    }
  }

  lemma ControlFits(g: Grammar, c: Certificate, l: Call, k: nat, n: nat)
    requires Consistent(g, l.t, c) && Working(l, k) && |At(l, k).st.stack| <= n
    ensures ControlOf(l.t, At(l, k)) in Controls(l.t.nstate, n)
  {
    hide At, WellFormed, Lists, Iterate, FindShiftAction;
    Next(g, c, l, k);
    ListsHold(l.t.nstate, n, States(At(l, k).st.stack));
  }

  /** Without a cycle, a loop whose stack stays below `n` ends within as many iterations as
      there are controls. */
  lemma NoCycleEnds(g: Grammar, c: Certificate, l: Call, n: nat)
    requires Consistent(g, l.t, c) && Below(l, n) && !exists i, j :: Cycle(l, i, j)
    ensures !Working(l, |Controls(l.t.nstate, n)|)
  {
    hide At, WellFormed, Controls, ControlOf;
    var u := Controls(l.t.nstate, n);
    if Working(l, |u|) {
      forall k: nat | k <= |u| ensures Working(l, k) && ControlOf(l.t, At(l, k)) in u {
        if !Working(l, k) {
          StaysIdle(g, c, l, k, |u|);
        }
        ControlFits(g, c, l, k, n);
      }
      var s := seq(|u| + 1, k requires 0 <= k => ControlOf(l.t, At(l, k)));
      forall i, j | 0 <= i < j < |s| ensures s[i] != s[j] {
        assert !Cycle(l, i, j);
      }
      DistinctFits(s, u);
    }
  }

  // --- Height ---

  lemma PushGrows(t: Tables, st: State, e: Entry, alloc: bool)
    ensures |Push(t, st, e, alloc).stack| <= |st.stack| + 1
  {
  }

  lemma ErrorGrows(t: Tables, st: State, tok: Token, hit: bool, alloc: bool)
    requires WellFormed(t) && st.stack != []
    requires forall k :: 0 <= k < |st.stack| ==> st.stack[k].state < t.nstate
    ensures |HandleError(t, st, tok, hit, alloc).st.stack| <= |st.stack| + 1
  {
    hide WellFormed, FindReduceAction, Push;
    if t.mode.ErrorSymbol? && Top(st).major != t.mode.symbol && !hit {
      var told := (if st.errcnt < 0 then Emit(st, [Report(tok)]) else st).(errcnt := 3);
      var popped := PopToError(t, told);
      if popped.stack != [] && tok.major != 0 {
        PushGrows(t, popped, Entry(FindReduceAction(t, Top(popped).state, t.mode.symbol), t.mode.symbol, ErrorMark), alloc);
      }
    }
  }

  lemma ReduceGrows(t: Tables, st: State, r: nat, alloc: bool)
    requires WellFormed(t) && CanReduce(t, st, r)
    ensures |Reduce(t, st, r, alloc).stack| <= |st.stack| + 1
  {
    hide WellFormed, FindReduceAction;
  }

  lemma IterateGrows(t: Tables, st: State, tok: Token, hit: bool, alloc: bool)
    requires WellFormed(t) && CanIterate(t, st, tok)
    ensures |Iterate(t, st, tok, hit, alloc).st.stack| <= |st.stack| + 1
  {
    hide WellFormed, FindShiftAction, Push, Reduce, HandleError;
    var act := FindShiftAction(t, Top(st).state, tok.major);
    if act < t.nstate {
      PushGrows(t, st, Entry(act, tok.major, Leaf(tok)), alloc);
    } else if act < ErrorAction(t) {
      ReduceGrows(t, st, act - t.nstate, alloc);
    } else {
      ErrorGrows(t, st, tok, hit, alloc);
    }
  }

  lemma {:induction false} Height(g: Grammar, c: Certificate, l: Call, k: nat)
    requires Consistent(g, l.t, c)
    ensures |At(l, k).st.stack| <= |At(l, 0).st.stack| + k
  {
    hide At, WellFormed, Iterate, CanIterate, Bounded;
    if k > 0 {
      Height(g, c, l, k - 1);
      Next(g, c, l, k - 1);
      if Working(l, k - 1) {
        var m := At(l, k - 1);
        IterateGrows(l.t, m.st, m.work.value, m.hit, l.allocs(k - 1));
      }
    }
  }

  /** As long as the allocator delivers, a Parse call returns if and only if no control
      repeats and the stack stays below some height. */
  lemma LoopEndsIff(g: Grammar, c: Certificate, l: Call)
    requires Consistent(g, l.t, c) && forall k: nat :: Answered(l.t, l.allocs(k))
    ensures Ends(l) <==> (!exists i, j :: Cycle(l, i, j)) && exists n :: Below(l, n)
  {
    hide At, WellFormed, Cycle, Working;
    if Ends(l) {
      var k :| !Working(l, k);
      if i, j :| Cycle(l, i, j) {
        CycleGoesOn(g, c, l, i, j, k);
      }
      var n := |At(l, 0).st.stack| + k;
      forall j: nat ensures |At(l, j).st.stack| <= n {
        if j <= k {
          Height(g, c, l, j);
        } else {
          StaysIdle(g, c, l, k, j);
          Height(g, c, l, k);
        }
      }
      assert Below(l, n);
    }
    if n :| (!exists i, j :: Cycle(l, i, j)) && Below(l, n) {
      NoCycleEnds(g, c, l, n);
    }
  }

  /** With a fixed stack depth the height takes care of itself: the call returns if and only
      if no control repeats, and then within as many iterations as there are controls. */
  lemma FixedDepthEndsIff(g: Grammar, c: Certificate, l: Call)
    requires Consistent(g, l.t, c) && l.t.stackDepth > 0
    ensures Ends(l) <==> !exists i, j :: Cycle(l, i, j)
    ensures Ends(l) <==> !Working(l, |Controls(l.t.nstate, l.t.stackDepth)|)
  {
    hide At, WellFormed, Cycle, Working, Controls;
    forall k: nat ensures |At(l, k).st.stack| <= l.t.stackDepth {
      Next(g, c, l, k);
    }
    assert Below(l, l.t.stackDepth);
    LoopEndsIff(g, c, l);
    if Ends(l) {
      NoCycleEnds(g, c, l, l.t.stackDepth);
    }
  }

  // --- A cycle consists of reductions ---

  ghost predicate Reduces(l: Call, k: nat)
    requires WellFormed(l.t) && Working(l, k) && CanIterate(l.t, At(l, k).st, At(l, k).work.value)
  {
    var m := At(l, k);
    l.t.nstate <= FindShiftAction(l.t, Top(m.st).state, m.work.value.major) < ErrorAction(l.t)
  }

  /** An iteration that goes on is a reduction, or a first error that raises yyerrorhit. */
  lemma GoesOn(t: Tables, st: State, tok: Token, hit: bool, alloc: bool)
    requires WellFormed(t) && CanIterate(t, st, tok) && !Iterate(t, st, tok, hit, alloc).done
    ensures var r := Iterate(t, st, tok, hit, alloc);
            var act := FindShiftAction(t, Top(st).state, tok.major);
            if t.nstate <= act < ErrorAction(t) then r.hit == hit else !hit && r.hit
  {
    hide WellFormed, FindShiftAction, PopToError, Push;
  }

  lemma {:induction false} HitStays(g: Grammar, c: Certificate, l: Call, i: nat, j: nat)
    requires Consistent(g, l.t, c) && i <= j && Working(l, i) && Working(l, j) && At(l, i).hit
    ensures At(l, j).hit
    decreases j
  {
    hide At, WellFormed, Iterate, CanIterate, Bounded;
    if i < j {
      Next(g, c, l, j - 1);
      HitStays(g, c, l, i, j - 1);
      var m := At(l, j - 1);
      GoesOn(l.t, m.st, m.work.value, m.hit, l.allocs(j - 1));
    }
  }

  /** Between two iterations of equal control there are only reductions: no token is shifted
      and no error is handled. */
  lemma CycleReduces(g: Grammar, c: Certificate, l: Call, i: nat, j: nat, k: nat)
    requires Consistent(g, l.t, c) && Cycle(l, i, j) && i <= k < j
    ensures Working(l, k) && CanIterate(l.t, At(l, k).st, At(l, k).work.value) && Reduces(l, k)
  {
    hide At, WellFormed, Iterate, CanIterate, Bounded, FindShiftAction;
    if !Working(l, k) {
      StaysIdle(g, c, l, k, j);
    }
    Next(g, c, l, k);
    if !Working(l, k + 1) {
      StaysIdle(g, c, l, k + 1, j);
    }
    var m := At(l, k);
    GoesOn(l.t, m.st, m.work.value, m.hit, l.allocs(k));
    if !Reduces(l, k) {
      HitStays(g, c, l, k + 1, j);
      HitStays(g, c, l, i, k);
    }
  }
}
