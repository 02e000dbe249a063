/** Ranks that make Parse return: one on the states for a token, and one on the symbols of a
    grammar without empty rules. */
module LemparRanks {
  import opened Options
  import opened LemparTables
  import opened LemparMachine
  import opened LemparSoundness
  import opened LemparTheorems
  import opened LemparDriver
  import opened LemparTermination
  import opened LemparProgress

  /** The states that popping `n` entries can uncover below state `s`. */
  function Uncovered(c: Certificate, s: nat, n: nat): set<nat>
    requires s < |c.past|
  {
    if n == 0 then {s} else if n <= |c.past[s]| then c.past[s][n - 1].below else {}
  }

  /** On token `a`, in state `s`, the reduction of `n` entries to state `q` pays: the rank of
      the top and `weight` per entry together go down. */
  ghost predicate Pays(rank: seq<nat>, weight: nat, s: nat, n: nat, q: nat)
    requires s < |rank| && q < |rank|
  {
    rank[q] + weight < rank[s] + n * weight
  }

  /** Every reduction on token `a` pays.  An empty rule must lower the rank by more than the
      weight of the entry it adds, a rule of one symbol must lower it, a longer one may raise
      it by less than the weight of the entries it takes away. */
  ghost predicate Descends(t: Tables, c: Certificate, a: Symbol, rank: seq<nat>, weight: nat)
    requires WellFormed(t) && |c.past| == t.nstate && a < t.nterm
  {
    && |rank| == t.nstate
    && forall s, p :: 0 <= s < t.nstate && 0 <= p < t.nstate ==> StepPays(t, c, a, rank, weight, s, p)
  }

  ghost predicate StepPays(t: Tables, c: Certificate, a: Symbol, rank: seq<nat>, weight: nat, s: nat, p: nat)
    requires WellFormed(t) && |c.past| == t.nstate == |rank| && a < t.nterm && s < t.nstate && p < t.nstate
  {
    var act := FindShiftAction(t, s, a);
    t.nstate <= act < ErrorAction(t) ==>
      var r := t.ruleInfo[act - t.nstate];
      var q := FindReduceAction(t, p, r.lhs);
      p in Uncovered(c, s, r.nrhs) && q < t.nstate ==> Pays(rank, weight, s, r.nrhs, q)
  }

  lemma AtInv(g: Grammar, c: Certificate, l: Call, k: nat)
    requires Consistent(g, l.t, c)
    ensures MachineInv(g, l.t, c, At(l, k))
  {
    hide MachineInv, WellFormed;
    RunSafe(g, l.t, c, l.first, l.past + Goes(Answers(l.allocs, k)));
  }

  lemma UncoveredState(g: Grammar, t: Tables, c: Certificate, st: State, r: nat)
    requires Consistent(g, t, c) && st.stack != [] && StackOk(g, t, c, st.stack) && ReduceOk(g, t, c, Top(st).state, r)
    ensures r < NRule(t) && t.ruleInfo[r].nrhs < |st.stack|
    ensures st.stack[|st.stack| - 1 - t.ruleInfo[r].nrhs].state in Uncovered(c, Top(st).state, t.ruleInfo[r].nrhs)
  {
    hide ValidTree, GotoOk, RestOk, TransitionOk;
    var n, k := |st.stack|, |g.rules[r].rhs|;
    assert Fits(g, t, c, st.stack, n - 1);
    if k > 0 {
      assert st.stack[n - 1 - (k - 1) - 1].state in c.past[Top(st).state][k - 1].below;
    }
  }

  ghost function Measure(rank: seq<nat>, weight: nat, st: State): nat {
    weight * |st.stack| + if st.stack != [] && Top(st).state < |rank| then rank[Top(st).state] else 0
  }

  lemma Weigh(weight: nat, h: nat, n: nat)
    requires n <= h
    ensures weight * (h - n + 1) == weight * h - n * weight + weight
  {
  }

  /** An iteration that goes on raises yyerrorhit, or reduces and pays. */
  lemma IterationPays(g: Grammar, t: Tables, c: Certificate, st: State, tok: Token, hit: bool, alloc: bool, rank: seq<nat>, weight: nat)
    requires Consistent(g, t, c) && Inv(g, t, c, st) && st.stack != [] && tok.major < t.nterm
    requires Descends(t, c, tok.major, rank, weight)
    ensures CanIterate(t, st, tok)
    ensures var r := Iterate(t, st, tok, hit, alloc);
            !r.done ==> if r.hit == hit then Measure(rank, weight, r.st) < Measure(rank, weight, st) else r.hit
  {
    hide WellFormed, FindShiftAction, FindReduceAction, Uncovered, StackOk, ReduceOk, Pays, Iterate, Measure, Reduction,
         RestOk, TransitionOk, LogOk;
    IterateAllowed(g, t, c, st, tok);
    var r, act := Iterate(t, st, tok, hit, alloc), FindShiftAction(t, Top(st).state, tok.major);
    if !r.done {
      GoesOn(t, st, tok, hit, alloc);
      if r.hit == hit {
        GoesOnReducing(t, st, tok, hit, alloc);
        UncoveredState(g, t, c, st, act - t.nstate);
        ReducedTop(t, tok.major, st.stack, r.st.stack, act);
        var n := t.ruleInfo[act - t.nstate].nrhs;
        assert StepPays(t, c, tok.major, rank, weight, Top(st).state, st.stack[|st.stack| - 1 - n].state);
        PaidMeasure(rank, weight, st, n, r.st);
      }
    }
  }

  lemma MeasureFalls(g: Grammar, c: Certificate, l: Call, k: nat, i: nat, a: Symbol, rank: seq<nat>, weight: nat)
    requires Consistent(g, l.t, c) && Settled(l, k) && Called(l, a) && Descends(l.t, c, a, rank, weight)
    ensures Measure(rank, weight, At(l, k + i + 1).st) < Measure(rank, weight, At(l, k + i).st)
  {
    hide At, WellFormed, Descends, Measure, Iterate, CanIterate, Inv;
    var m := At(l, k + i);
    assert Working(l, k + i) && Working(l, k + i + 1) && At(l, k + i + 1).hit == m.hit;
    SameToken(g, c, l, k + i);
    AtInv(g, c, l, k + i);
    Next(g, c, l, k + i);
    IterationPays(g, l.t, c, m.st, m.work.value, m.hit, l.allocs(k + i), rank, weight);
  }

  lemma PaidMeasure(rank: seq<nat>, weight: nat, st: State, n: nat, next: State)
    requires st.stack != [] && next.stack != [] && n < |st.stack| && |next.stack| == |st.stack| - n + 1
    requires Top(st).state < |rank| && Top(next).state < |rank| && Pays(rank, weight, Top(st).state, n, Top(next).state)
    ensures Measure(rank, weight, next) < Measure(rank, weight, st)
  {
    Weigh(weight, |st.stack|, n);
  }

  lemma ReducedTop(t: Tables, a: Symbol, stack: seq<Entry>, next: seq<Entry>, act: nat)
    requires WellFormed(t) && a < t.nterm && stack != [] && Reduction(t, a, States(stack)) == Some(States(next))
    requires stack[|stack| - 1].state < t.nstate && act == FindShiftAction(t, stack[|stack| - 1].state, a)
    ensures t.nstate <= act < ErrorAction(t)
    ensures var r := t.ruleInfo[act - t.nstate];
            && r.nrhs < |stack| && |next| == |stack| - r.nrhs + 1
            && stack[|stack| - 1 - r.nrhs].state < t.nstate
            && next[|next| - 1].state == FindReduceAction(t, stack[|stack| - 1 - r.nrhs].state, r.lhs) < t.nstate
  {
    hide WellFormed, FindShiftAction, FindReduceAction;
    var s := States(stack);
    assert s[|s| - 1] == stack[|stack| - 1].state;
    var k := |s| - t.ruleInfo[act - t.nstate].nrhs;
    assert |States(next)| == k + 1 && States(next)[k] == next[k].state && s[k - 1] == stack[k - 1].state;
  }

  lemma {:induction false} MeasureSpent(g: Grammar, c: Certificate, l: Call, k: nat, n: nat, a: Symbol, rank: seq<nat>, weight: nat)
    requires Consistent(g, l.t, c) && Settled(l, k) && Called(l, a) && Descends(l.t, c, a, rank, weight)
    ensures Measure(rank, weight, At(l, k + n).st) + n <= Measure(rank, weight, At(l, k).st)
    decreases n
  {
    hide At, WellFormed, Measure, Settled, Called, Descends;
    if n > 0 {
      MeasureSpent(g, c, l, k, n - 1, a, rank, weight);
      MeasureFalls(g, c, l, k, n - 1, a, rank, weight);
    }
  }

  /** If every reduction on the token pays, the call returns, whatever is on the stack and
      whatever the allocator does. */
  lemma DescendingEnds(g: Grammar, c: Certificate, l: Call, a: Symbol, rank: seq<nat>, weight: nat)
    requires Consistent(g, l.t, c) && Called(l, a) && Descends(l.t, c, a, rank, weight)
    ensures Ends(l)
  {
    hide At, WellFormed, Ends, Settled, Measure, Called, Descends;
    if !Ends(l) {
      var k := Settles(g, c, l);
      var n := Measure(rank, weight, At(l, k).st) + 1;
      MeasureSpent(g, c, l, k, n, a, rank, weight);
    }
  }

  /** Parse with the loop the template writes, on tables whose reductions on the token pay:
      it returns, and `n` iterations of the run have passed. */
  method ParseToEnd(p: Parser, tok: Token, allocs: nat -> bool, ghost g: Grammar, ghost c: Certificate,
                    ghost first: bool, ghost past: seq<Action>, ghost rank: seq<nat>, ghost weight: nat)
    returns (n: nat, hit: bool)
    requires p.Valid() && Consistent(g, p.t, c) && tok.major < p.t.nterm && Descends(p.t, c, tok.major, rank, weight)
    requires Run(p.t, Init(p.t, first), past).Some? && Run(p.t, Init(p.t, first), past).value.st == p.Abs()
             && Run(p.t, Init(p.t, first), past).value.work.None?
    modifies p, p.yystack
    ensures p.Valid() && (p.yystack == old(p.yystack) || fresh(p.yystack))
    ensures Run(p.t, Init(p.t, first), past + [Feed(tok)] + Goes(Answers(allocs, n))) == Some(Machine(p.Abs(), None, hit))
  {
    hide Run, WellFormed, Consistent, Descends, Measure, MachineInv, Ready;
    RunSnoc(p.t, Init(p.t, first), past, Feed(tok));
    var done := p.Begin();
    n, hit := 0, false;
    ghost var acts := past + [Feed(tok)];
    assert acts + Goes(Answers(allocs, 0)) == acts;
    while !done
      invariant p.Valid() && (p.yystack == old(p.yystack) || fresh(p.yystack))
      invariant acts == past + [Feed(tok)] + Goes(Answers(allocs, n))
      invariant Run(p.t, Init(p.t, first), acts) == Some(Machine(p.Abs(), if done then None else Some(tok), hit))
      decreases !done, !hit, Measure(rank, weight, p.Abs())
    {
      RunReady(g, p.t, c, first, acts);
      RunPays(g, p.t, c, first, acts, allocs(n), tok, rank, weight);
      AnswersSnoc(past + [Feed(tok)], allocs, n);
      hit, done := p.OnceInRun(tok, hit, done, allocs(n), Init(p.t, first), acts);
      acts := acts + [Go(allocs(n))];
      n := n + 1;
    }
  }

  lemma AnswersSnoc(past: seq<Action>, allocs: nat -> bool, n: nat)
    ensures past + Goes(Answers(allocs, n + 1)) == past + Goes(Answers(allocs, n)) + [Go(allocs(n))]
  {
    var more := Answers(allocs, n + 1);
    assert more[..n] == Answers(allocs, n) && more[..n + 1] == more;
    GoesSnoc(more, n);
  }

  /** The step of a run that works on `tok` raises yyerrorhit, or pays. */
  lemma RunPays(g: Grammar, t: Tables, c: Certificate, first: bool, acts: seq<Action>, alloc: bool, tok: Token, rank: seq<nat>, weight: nat)
    requires Consistent(g, t, c) && tok.major < t.nterm && Descends(t, c, tok.major, rank, weight)
    requires Run(t, Init(t, first), acts).Some? && Run(t, Init(t, first), acts).value.work == Some(tok)
    ensures Run(t, Init(t, first), acts + [Go(alloc)]).Some?
    ensures var m, next := Run(t, Init(t, first), acts).value, Run(t, Init(t, first), acts + [Go(alloc)]).value;
            next.work.Some? ==>
              if next.hit == m.hit then Measure(rank, weight, next.st) < Measure(rank, weight, m.st) else next.hit
  {
    hide Run, WellFormed, Descends, Measure, Inv, Iterate, CanIterate;
    RunSafe(g, t, c, first, acts);
    RunSnoc(t, Init(t, first), acts, Go(alloc));
    var m := Run(t, Init(t, first), acts).value;
    IterationPays(g, t, c, m.st, tok, m.hit, alloc, rank, weight);
  }

  // --- Grammars without empty rules ---

  /** No rule is empty, and the symbol rank falls from the right-hand side of every one-symbol
      rule to its left-hand side. */
  ghost predicate Falls(g: Grammar, rank: Symbol -> nat) {
    forall r :: 0 <= r < |g.rules| ==>
      && g.rules[r].rhs != []
      && (|g.rules[r].rhs| == 1 ==> rank(g.rules[r].lhs) < rank(g.rules[r].rhs[0]))
  }

  /** A state has the rank of the symbol that leads to it, if that is known. */
  function StateRank(c: Certificate, rank: Symbol -> nat, s: nat): nat
    requires s < |c.past|
  {
    if c.past[s] == [] then 0 else rank(c.past[s][0].sym)
  }

  function StateRanks(c: Certificate, rank: Symbol -> nat): (r: seq<nat>)
    ensures |r| == |c.past| && forall s :: 0 <= s < |r| ==> r[s] == StateRank(c, rank, s)
  {
    seq(|c.past|, s requires 0 <= s < |c.past| => StateRank(c, rank, s))
  }

  function Bound(ns: seq<nat>): (b: nat)
    ensures forall i :: 0 <= i < |ns| ==> ns[i] < b
  {
    if ns == [] then 0
    else
      var last, b := ns[|ns| - 1], Bound(ns[..|ns| - 1]);
      assert forall i :: 0 <= i < |ns| - 1 ==> ns[i] == ns[..|ns| - 1][i];
      if last < b then b else last + 1
  }

  /** The goto after a reduction leads to a state whose symbol, if known, is the left-hand
      side. */
  lemma GotoSymbol(g: Grammar, t: Tables, c: Certificate, s: nat, r: nat, p: nat)
    requires Consistent(g, t, c) && s < t.nstate && p < t.nstate && ReduceOk(g, t, c, s, r)
    requires p in Uncovered(c, s, |g.rules[r].rhs|)
    ensures var q := FindReduceAction(t, p, g.rules[r].lhs);
            q < t.nstate ==> c.past[q] == [] || c.past[q][0].sym == g.rules[r].lhs
  {
    hide RestOk;
    assert GotoOk(g, t, c, p, g.rules[r].lhs);
  }

  lemma SymbolPays(g: Grammar, t: Tables, c: Certificate, rank: Symbol -> nat, s: nat, r: nat, p: nat)
    requires Consistent(g, t, c) && Falls(g, rank) && s < t.nstate && p < t.nstate && ReduceOk(g, t, c, s, r)
    requires p in Uncovered(c, s, |g.rules[r].rhs|)
    ensures var ranks, q := StateRanks(c, rank), FindReduceAction(t, p, g.rules[r].lhs);
            q < t.nstate ==> Pays(ranks, Bound(ranks), s, |g.rules[r].rhs|, q)
  {
    hide WellFormed, RestOk, FindReduceAction, Uncovered, Bound;
    var ranks, q, rhs := StateRanks(c, rank), FindReduceAction(t, p, g.rules[r].lhs), g.rules[r].rhs;
    GotoSymbol(g, t, c, s, r, p);
    if q < t.nstate {
      var b := Bound(ranks);
      assert ranks[q] < b;
      if |rhs| == 1 {
        assert c.past[s][0].sym == rhs[0];
      } else {
        Twice(|rhs|, b);
      }
    }
  }

  lemma Twice(n: nat, b: nat)
    requires n >= 2
    ensures n * b >= b + b
  {
    assert n * b == (n - 2) * b + 2 * b;
  }

  /** Such a grammar gives a rank for every token. */
  lemma FallingDescends(g: Grammar, t: Tables, c: Certificate, rank: Symbol -> nat, a: Symbol)
    requires Consistent(g, t, c) && Falls(g, rank) && a < t.nterm
    ensures Descends(t, c, a, StateRanks(c, rank), Bound(StateRanks(c, rank)))
  {
    hide WellFormed, Bound, StateRanks, Pays, Uncovered, FindReduceAction, FindShiftAction, Falls, RestOk, TransitionOk, ReduceOk;
    var ranks := StateRanks(c, rank);
    assert |ranks| == t.nstate;
    forall s, p | 0 <= s < t.nstate && 0 <= p < t.nstate ensures StepPays(t, c, a, ranks, Bound(ranks), s, p) {
      var act := FindShiftAction(t, s, a);
      if t.nstate <= act < ErrorAction(t) {
        ReductionOk(g, t, c, s, a, act);
        var r := act - t.nstate;
        if p in Uncovered(c, s, t.ruleInfo[r].nrhs) {
          SymbolPays(g, t, c, rank, s, r, p);
        }
      }
    }
  }

  lemma ReductionOk(g: Grammar, t: Tables, c: Certificate, s: nat, a: Symbol, act: nat)
    requires Consistent(g, t, c) && s < t.nstate && a < t.nterm
    requires act == FindShiftAction(t, s, a) && t.nstate <= act < ErrorAction(t)
    ensures ReduceOk(g, t, c, s, act - t.nstate)
    ensures t.ruleInfo[act - t.nstate] == RuleInfo(g.rules[act - t.nstate].lhs, |g.rules[act - t.nstate].rhs|)
  {
    hide WellFormed, FindShiftAction, ReduceOk;
    ShiftActionSound(g, t, c, s, a);
  }

  /** For a grammar without empty rules whose one-symbol rules lower a rank, every call on
      every consistent table set returns, whatever the allocator does. */
  lemma FallingEnds(g: Grammar, c: Certificate, l: Call, rank: Symbol -> nat)
    requires Consistent(g, l.t, c) && Falls(g, rank)
    ensures Ends(l)
  {
    hide At, WellFormed, Falls, Descends, Bound, StateRanks;
    if Working(l, 0) {
      AtInv(g, c, l, 0);
      var a := At(l, 0).work.value.major;
      FallingDescends(g, l.t, c, rank, a);
      DescendingEnds(g, c, l, a, StateRanks(c, rank), Bound(StateRanks(c, rank)));
    }
  }
}
