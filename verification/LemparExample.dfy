/** The hypothesis of the theorems is met by real tables: those of the grammar S ::= A. */
module LemparExample {
  import opened Options
  import opened LemparTables
  import opened LemparMachine

  const A: Symbol := 1
  const S: Symbol := 2

  function OneRule(): Grammar { Grammar([Rule(S, [A])], S) }

  /** State 0 shifts A to state 1 and accepts S; state 1 reduces by default. */
  function OneRuleTables(): Tables {
    Tables(2, 2, [RuleInfo(S, 1)], [0], -1, [0], -1, [3, 2], [5, 1, 4], [9, A, S], [], None, Plain, 0)
  }

  function OneRuleCertificate(): Certificate { Certificate([[], [Known(A, {0})]]) }

  lemma OneRuleGotos(g: Grammar, t: Tables, c: Certificate)
    requires g == OneRule() && t == OneRuleTables() && c == OneRuleCertificate()
    ensures RestOk(g, t, c, 0, t.dflt[0]) && RestOk(g, t, c, 1, t.dflt[1])
  {
    assert Hit(t, 0 + S, S) && t.action[t.reduceOfst[0] + S] == AcceptAction(t);
    assert GotoOk(g, t, c, 0, S);
    assert c.past[1][0].below == {0};
    assert ReduceOk(g, t, c, 1, 0);
  }

  lemma OneRuleWellFormed()
    ensures WellFormed(OneRuleTables())
  {
    assert Ranks(OneRuleTables(), []);
  }

  lemma OneRuleShifts(g: Grammar, t: Tables, c: Certificate, s: int, i: int)
    requires g == OneRule() && t == OneRuleTables() && c == OneRuleCertificate() && ShiftEntry(t, s, i)
    ensures s == 0 && TransitionOk(t, c, s, t.lookahead[i], t.action[i])
  {
    assert s == 0 && i == 1 && c.past[1] == [Known(A, {0})];
  }

  lemma OneRuleConsistent()
    ensures Consistent(OneRule(), OneRuleTables(), OneRuleCertificate())
  {
    hide WellFormed, RestOk, TransitionOk;
    var g, t, c := OneRule(), OneRuleTables(), OneRuleCertificate();
    OneRuleWellFormed();
    OneRuleGotos(g, t, c);
    forall s | 0 <= s < t.nstate
      ensures RestOk(g, t, c, s, t.dflt[s])
    {
      assert s == 0 || s == 1;
    }
    forall s, i | ShiftEntry(t, s, i)
      ensures TransitionOk(t, c, s, t.lookahead[i], t.action[i])
    {
      OneRuleShifts(g, t, c, s, i);
    }
  }

  lemma OneRuleActions()
    ensures WellFormed(OneRuleTables())
    ensures FindShiftAction(OneRuleTables(), 0, A) == 1 && FindShiftAction(OneRuleTables(), 1, 0) == 2
    ensures FindReduceAction(OneRuleTables(), 0, S) == 4
  {
    OneRuleWellFormed();
    hide WellFormed;
  }

  function Shifted1(a: Token): State {
    State([Entry(0, 0, ErrorMark), Entry(1, A, Leaf(a))], 1, -2, 100, [Restart, Shift(a)])
  }

  lemma ShiftStep(a: Token)
    requires a.major == A
    ensures WellFormed(OneRuleTables())
    ensures var st := State([Entry(0, 0, ErrorMark)], 0, -1, 100, [Restart]);
            && CanIterate(OneRuleTables(), st, a)
            && Iterate(OneRuleTables(), st, a, false, true) == Result(Shifted1(a), false, true)
  {
    hide WellFormed, FindShiftAction, FindReduceAction, Reduce, HandleError;
    OneRuleActions();
    var t := OneRuleTables();
    var st := State([Entry(0, 0, ErrorMark)], 0, -1, 100, [Restart]);
    assert st.stack + [Entry(1, A, Leaf(a))] == Shifted1(a).stack && [Restart] + [Shift(a)] == Shifted1(a).log;
  }

  lemma AcceptStep(a: Token, end: Token)
    requires a.major == A && end.major == 0
    ensures WellFormed(OneRuleTables())
    ensures CanIterate(OneRuleTables(), Shifted1(a), end)
    ensures Iterate(OneRuleTables(), Shifted1(a), end, false, true).st.log
            == [Restart, Shift(a), Accept(Node(0, [Leaf(a)]))]
  {
    hide WellFormed, FindShiftAction, FindReduceAction, HandleError, Push;
    OneRuleActions();
    assert Minors(Shifted1(a).stack[1..]) == [Leaf(a)];
  }

  lemma NoActions(t: Tables, m: Machine)
    requires WellFormed(t)
    ensures Run(t, m, []) == Some(m)
  {
  }

  /** Feeding A and the end of input runs shift, reduce and accept. */
  lemma OneRuleAccepts(a: Token, end: Token)
    requires a.major == A && end.major == 0
    ensures WellFormed(OneRuleTables())
    ensures var r := Run(OneRuleTables(), Init(OneRuleTables(), true), [Feed(a)] + [Go(true)] + [Feed(end)] + [Go(true)]);
            r.Some? && r.value.st.log == [Restart, Shift(a), Accept(Node(0, [Leaf(a)]))]
  {
    hide WellFormed, CanIterate, Iterate, Run;
    ShiftStep(a);
    AcceptStep(a, end);
    var t := OneRuleTables();
    var m0 := Init(t, true);
    NoActions(t, m0);
    assert [] + [Restart] == [Restart] && [] + [Feed(a)] == [Feed(a)];
    RunSnoc(t, m0, [], Feed(a));
    RunSnoc(t, m0, [Feed(a)], Go(true));
    RunSnoc(t, m0, [Feed(a)] + [Go(true)], Feed(end));
    RunSnoc(t, m0, [Feed(a)] + [Go(true)] + [Feed(end)], Go(true));
  }
}
