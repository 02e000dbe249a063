/** A grammar on which Parse does not return: T ::= A.  T ::= T.  S ::= T.  In the state
    after T two rules can be reduced, and the tables take the one that comes first. */
module LemparCyclic {
  import opened Options
  import opened LemparTables
  import opened LemparMachine
  import LemparDriver
  import opened LemparTermination
  import opened LemparProgress
  import opened LemparRanks

  const A: Symbol := 1
  const T: Symbol := 2
  const S: Symbol := 3

  function Grammar3(): Grammar { Grammar([Rule(T, [A]), Rule(T, [T]), Rule(S, [T])], S) }

  /** State 0 shifts A to state 1, goes to state 2 on T and accepts S; states 1 and 2 reduce
      by default, to T. */
  function Tables3(): Tables {
    Tables(2, 3, [RuleInfo(T, 1), RuleInfo(T, 1), RuleInfo(S, 1)], [0], -1, [0], -1, [6, 3, 4],
           [9, 1, 2, 7], [9, A, T, S], [], None, Plain, 100)
  }

  function Certificate3(): Certificate { Certificate([[], [Known(A, {0})], [Known(T, {0})]]) }

  lemma Gotos(g: Grammar, t: Tables, c: Certificate)
    requires g == Grammar3() && t == Tables3() && c == Certificate3()
    ensures RestOk(g, t, c, 0, t.dflt[0]) && RestOk(g, t, c, 1, t.dflt[1]) && RestOk(g, t, c, 2, t.dflt[2])
  {
    assert c.past[1] == [Known(A, {0})] && c.past[2] == [Known(T, {0})];
    assert Hit(t, 0 + T, T) && t.action[t.reduceOfst[0] + T] == 2;
    assert TransitionOk(t, c, 0, T, 2);
    assert GotoOk(g, t, c, 0, T);
    assert ReduceOk(g, t, c, 1, 0);
    assert ReduceOk(g, t, c, 2, 1);
  }

  lemma Formed()
    ensures WellFormed(Tables3())
  {
    assert Ranks(Tables3(), []);
  }

  lemma Shifts(g: Grammar, t: Tables, c: Certificate, s: int, i: int)
    requires g == Grammar3() && t == Tables3() && c == Certificate3() && ShiftEntry(t, s, i)
    ensures s == 0 && TransitionOk(t, c, s, t.lookahead[i], t.action[i])
  {
    assert s == 0 && i == 1 && c.past[1] == [Known(A, {0})];
  }

  lemma Agrees()
    ensures Consistent(Grammar3(), Tables3(), Certificate3())
  {
    hide WellFormed, RestOk, TransitionOk;
    var g, t, c := Grammar3(), Tables3(), Certificate3();
    Formed();
    Gotos(g, t, c);
    forall s | 0 <= s < t.nstate ensures RestOk(g, t, c, s, t.dflt[s]) {
      assert s == 0 || s == 1 || s == 2;
    }
    forall s, i | ShiftEntry(t, s, i) ensures TransitionOk(t, c, s, t.lookahead[i], t.action[i]) {
      Shifts(g, t, c, s, i);
    }
  }

  lemma Actions()
    ensures WellFormed(Tables3())
    ensures FindShiftAction(Tables3(), 0, A) == 1
    ensures FindShiftAction(Tables3(), 1, 0) == 3 && FindShiftAction(Tables3(), 2, 0) == 4
    ensures FindReduceAction(Tables3(), 0, T) == 2
  {
    Formed();
    hide WellFormed;
  }

  /** At the end of input, over state 0, states 1 and 2 both lead to state 2. */
  lemma ToState2(st: State, end: Token, hit: bool, alloc: bool)
    requires |st.stack| == 2 && st.stack[0].state == 0 && st.stack[1].state in {1, 2} && st.size == 100 && end.major == 0
    ensures WellFormed(Tables3()) && CanIterate(Tables3(), st, end)
    ensures var r := Iterate(Tables3(), st, end, hit, alloc);
            && !r.done && r.hit == hit && r.st.size == 100
            && |r.st.stack| == 2 && r.st.stack[0].state == 0 && r.st.stack[1].state == 2
  {
    hide WellFormed, FindShiftAction, FindReduceAction, HandleError;
    Actions();
    assert Tables3().ruleInfo == [RuleInfo(T, 1), RuleInfo(T, 1), RuleInfo(S, 1)];
  }

  lemma ShiftsA(a: Token)
    requires a.major == A
    ensures WellFormed(Tables3())
    ensures var st := State([Entry(0, 0, ErrorMark)], 0, -1, 100, [Restart]);
            && CanIterate(Tables3(), st, a)
            && Iterate(Tables3(), st, a, false, true)
               == Result(State(st.stack + [Entry(1, A, Leaf(a))], 1, -2, 100, [Restart] + [Shift(a)]), false, true)
  {
    hide WellFormed, FindShiftAction, FindReduceAction, Reduce, HandleError;
    Actions();
  }

  /** Parse called with an A, and then with the end of input. */
  function Second(a: Token, end: Token): Call {
    Call(Tables3(), true, [Feed(a)] + [Go(true)] + [Feed(end)], _ => true)
  }

  lemma Begins(a: Token, end: Token)
    requires a.major == A && end.major == 0
    ensures WellFormed(Tables3())
    ensures At(Second(a, end), 0)
            == Machine(State([Entry(0, 0, ErrorMark)] + [Entry(1, A, Leaf(a))], 1, -2, 100, [Restart] + [Shift(a)]),
                       Some(end), false)
  {
    hide WellFormed, CanIterate, Iterate, Run;
    ShiftsA(a);
    var t := Tables3();
    var m0 := Init(t, true);
    Empty(t, m0);
    assert [] + [Restart] == [Restart] && [] + [Feed(a)] == [Feed(a)];
    RunSnoc(t, m0, [], Feed(a));
    RunSnoc(t, m0, [Feed(a)], Go(true));
    RunSnoc(t, m0, [Feed(a)] + [Go(true)], Feed(end));
    var l := Second(a, end);
    assert l.past + LemparDriver.Goes(Answers(l.allocs, 0)) == l.past;
  }

  lemma Empty(t: Tables, m: Machine)
    requires WellFormed(t)
    ensures Run(t, m, []) == Some(m)
  {
  }

  /** The tables implement the grammar, and yet the second call never returns. */
  lemma NeverReturns(a: Token, end: Token)
    requires a.major == A && end.major == 0
    ensures Consistent(Grammar3(), Tables3(), Certificate3())
    ensures Cycle(Second(a, end), 1, 2) && !Ends(Second(a, end))
  {
    hide WellFormed, CanIterate, Iterate, At, Consistent, Bounded;
    var g, c, l := Grammar3(), Certificate3(), Second(a, end);
    Agrees();
    Begins(a, end);
    ToState2(At(l, 0).st, end, false, true);
    Next(g, c, l, 0);
    ToState2(At(l, 1).st, end, false, true);
    Next(g, c, l, 1);
    assert States(At(l, 1).st.stack) == [0, 2] == States(At(l, 2).st.stack);
    FixedDepthEndsIff(g, c, l);
  }

  lemma ReducesToItself()
    ensures WellFormed(Tables3()) && Reduction(Tables3(), 0, [0, 2]) == Some([0, 2])
  {
    hide WellFormed, FindShiftAction, FindReduceAction;
    Actions();
    assert Tables3().ruleInfo == [RuleInfo(T, 1), RuleInfo(T, 1), RuleInfo(S, 1)];
    var s: seq<nat> := [0, 2];
    assert s[|s| - 1] == 2 && Tables3().ruleInfo[1] == RuleInfo(T, 1) && s[0] == 0;
    assert s[..1] + [2] == s;
  }

  lemma {:induction false} ReducesForEver(n: nat)
    ensures WellFormed(Tables3()) && Reductions(Tables3(), 0, [0, 2], n) == Some([0, 2])
  {
    hide WellFormed, Reduction;
    ReducesToItself();
    if n > 0 {
      ReducesForEver(n - 1);
    }
  }

  /** The two states on top go on for ever on their own; so there is no rank, neither on the
      states for the end of input nor on the symbols. */
  lemma NoRank(rank: seq<nat>, weight: nat, symbolRank: Symbol -> nat)
    ensures WellFormed(Tables3()) && Diverges(Tables3(), 0, [0, 2], None)
    ensures !Descends(Tables3(), Certificate3(), 0, rank, weight) && !Falls(Grammar3(), symbolRank)
  {
    hide WellFormed, FindShiftAction, FindReduceAction, Reductions;
    Actions();
    forall n: nat ensures Reductions(Tables3(), 0, [0, 2], n) == Some([0, 2]) {
      ReducesForEver(n);
    }
    if |rank| == 3 {
      assert Tables3().ruleInfo[1] == RuleInfo(T, 1) && Certificate3().past[2] == [Known(T, {0})];
      assert 0 in Uncovered(Certificate3(), 2, 1);
      assert !StepPays(Tables3(), Certificate3(), 0, rank, weight, 2, 0);
    }
    var r := Grammar3().rules[1];
    assert r.lhs == T && r.rhs == [T];
  }
}
