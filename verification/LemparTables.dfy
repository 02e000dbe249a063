/** The generated tables of the LALR driver, the grammar they were generated from, and
    the two table lookups.  Everything is a parameter: a statement about `Tables` is a
    statement about every generated parser. */
module LemparTables {
  import opened Options

  type Symbol = nat

  /** How the template was compiled: with neither macro, with YYNOERRORRECOVERY, or with
      YYERRORSYMBOL defined as `symbol`. */
  datatype ErrorMode = Plain | NoRecovery | ErrorSymbol(symbol: Symbol)

  datatype RuleInfo = RuleInfo(lhs: Symbol, nrhs: nat)

  datatype Tables = Tables(
    nterm: nat,                 // terminals are the codes below nterm
    nstate: nat,                // YYNSTATE
    ruleInfo: seq<RuleInfo>,    // yyRuleInfo; its length is YYNRULE
    shiftOfst: seq<int>,        // yy_shift_ofst; its length is YY_SHIFT_COUNT + 1
    shiftUseDflt: int,          // YY_SHIFT_USE_DFLT
    reduceOfst: seq<int>,       // yy_reduce_ofst; its length is YY_REDUCE_COUNT + 1
    reduceUseDflt: int,         // YY_REDUCE_USE_DFLT
    dflt: seq<nat>,             // yy_default
    action: seq<nat>,           // yy_action
    lookahead: seq<nat>,        // yy_lookahead
    fallback: seq<nat>,         // yyFallback; empty when YYFALLBACK is undefined
    wildcard: Option<Symbol>,   // YYWILDCARD
    mode: ErrorMode,
    stackDepth: nat)            // YYSTACKDEPTH; 0 stands for a growing stack

  function NRule(t: Tables): nat { |t.ruleInfo| }
  function ErrorAction(t: Tables): nat { t.nstate + NRule(t) }
  function AcceptAction(t: Tables): nat { t.nstate + NRule(t) + 1 }

  /** A rank that falls along every fallback link. */
  ghost predicate Ranks(t: Tables, rank: seq<nat>) {
    && |rank| == |t.fallback|
    && forall x :: 0 < x < |t.fallback| && t.fallback[x] != 0 && t.fallback[x] < |rank| ==>
         rank[t.fallback[x]] < rank[x]
  }

  /** No chain of %fallback declarations returns to its own start. */
  ghost predicate FallbackAcyclic(t: Tables) {
    exists rank :: Ranks(t, rank)
  }

  ghost function FallbackRank(t: Tables, x: Symbol): (r: nat)
    requires FallbackAcyclic(t)
  {
    var rank :| Ranks(t, rank);
    if x < |rank| then rank[x] + 1 else 0
  }

  /** Array lengths and code ranges of any table set the generator emits. */
  ghost predicate WellFormed(t: Tables) {
    && 0 < t.nstate
    && |t.dflt| == t.nstate
    && |t.action| == |t.lookahead|
    && |t.shiftOfst| <= t.nstate
    && |t.reduceOfst| <= t.nstate
    && |t.fallback| <= t.nterm
    && (forall x :: 0 <= x < |t.fallback| ==> t.fallback[x] < t.nterm)
    && (t.wildcard.Some? ==> t.wildcard.value < t.nterm)
    && FallbackAcyclic(t)
  }

  predicate Hit(t: Tables, i: int, x: Symbol)
    requires |t.action| == |t.lookahead|
  {
    0 <= i < |t.action| && t.lookahead[i] == x
  }

  /** yy_find_shift_action: the action of state `s` on terminal `la`, following %fallback
      links first and %wildcard second. */
  function FindShiftAction(t: Tables, s: nat, la: Symbol): (act: nat)
    requires WellFormed(t) && s < t.nstate && la < t.nterm
    decreases FallbackRank(t, la)
  {
    if s >= |t.shiftOfst| || t.shiftOfst[s] == t.shiftUseDflt then t.dflt[s]
    else if Hit(t, t.shiftOfst[s] + la, la) then t.action[t.shiftOfst[s] + la]
    else if 0 < la < |t.fallback| && t.fallback[la] != 0 then
      FindShiftAction(t, s, t.fallback[la])
    else if 0 < la && t.wildcard.Some? && Hit(t, t.shiftOfst[s] + t.wildcard.value, t.wildcard.value) then
      t.action[t.shiftOfst[s] + t.wildcard.value]
    else t.dflt[s]
  }

  /** yy_find_reduce_action.  Without an error symbol the source asserts that the entry
      exists; with one it falls back on the default action. */
  function FindReduceAction(t: Tables, s: nat, x: Symbol): (act: nat)
    requires WellFormed(t) && s < t.nstate
  {
    if s < |t.reduceOfst| && Hit(t, t.reduceOfst[s] + x, x) then t.action[t.reduceOfst[s] + x]
    else t.dflt[s]
  }

  /** The terminal `x` that a token of code `m` may stand for: itself, anything along its
      fallback chain, or the wildcard. */
  ghost predicate Plays(t: Tables, m: Symbol, x: Symbol)
    requires WellFormed(t)
    decreases FallbackRank(t, m)
  {
    || m == x
    || (0 < m < |t.fallback| && t.fallback[m] != 0 && Plays(t, t.fallback[m], x))
    || (0 < m && t.wildcard == Some(x))
  }

  // --- The grammar and the certificate that ties the tables to it ---

  datatype Rule = Rule(lhs: Symbol, rhs: seq<Symbol>)
  datatype Grammar = Grammar(rules: seq<Rule>, start: Symbol)

  /** One level of what a state knows about the stack under it: the symbol at that level
      and the states that may lie just below it. */
  datatype Known = Known(sym: Symbol, below: set<nat>)

  /** `past[s]` is the known stack suffix of state `s`, top first. */
  datatype Certificate = Certificate(past: seq<seq<Known>>)

  /** Moving from `s` to `next` on symbol `x`: what `next` claims to know follows from `x`
      and from what `s` knew.  State 0 is entered only at start-up. */
  ghost predicate TransitionOk(t: Tables, c: Certificate, s: nat, x: Symbol, next: nat)
    requires |c.past| == t.nstate && s < t.nstate
  {
    && 0 < next < t.nstate
    && var p := c.past[next];
       p != [] ==>
         && p[0].sym == x
         && s in p[0].below
         && |p| - 1 <= |c.past[s]|
         && forall i :: 0 <= i < |p| - 1 ==>
              p[i + 1].sym == c.past[s][i].sym && c.past[s][i].below <= p[i + 1].below
  }

  /** State `s` has a table entry for nonterminal `a`: a goto, or acceptance of the start
      symbol in state 0. */
  ghost predicate GotoOk(g: Grammar, t: Tables, c: Certificate, s: nat, a: Symbol)
    requires |c.past| == t.nstate && |t.action| == |t.lookahead|
  {
    && s < t.nstate
    && s < |t.reduceOfst|
    && t.reduceOfst[s] != t.reduceUseDflt
    && Hit(t, t.reduceOfst[s] + a, a)
    && var act := t.action[t.reduceOfst[s] + a];
       || TransitionOk(t, c, s, a, act)
       || (act == AcceptAction(t) && s == 0 && a == g.start)
  }

  /** Reducing by rule `r` in state `s`: the right-hand side is a known suffix, and every
      state that may be uncovered has a goto on the left-hand side. */
  ghost predicate ReduceOk(g: Grammar, t: Tables, c: Certificate, s: nat, r: nat)
    requires |c.past| == t.nstate && |t.action| == |t.lookahead| && s < t.nstate
  {
    && r < |g.rules|
    && var rhs := g.rules[r].rhs;
       && |rhs| <= |c.past[s]|
       && (forall i :: 0 <= i < |rhs| ==> c.past[s][i].sym == rhs[|rhs| - 1 - i])
       && (if rhs == [] then GotoOk(g, t, c, s, g.rules[r].lhs)
           else forall p :: p in c.past[s][|rhs| - 1].below ==> GotoOk(g, t, c, p, g.rules[r].lhs))
  }

  /** A legal action other than a shift: a reduce the state supports, or the error action. */
  ghost predicate RestOk(g: Grammar, t: Tables, c: Certificate, s: nat, act: nat)
    requires |c.past| == t.nstate && |t.action| == |t.lookahead| && s < t.nstate
  {
    || (t.nstate <= act < ErrorAction(t) && ReduceOk(g, t, c, s, act - t.nstate))
    || act == ErrorAction(t)
  }

  /** Slot `i` of yy_action answers state `s` on terminal `yy_lookahead[i]`. */
  ghost predicate ShiftEntry(t: Tables, s: int, i: int)
    requires |t.action| == |t.lookahead|
  {
    && 0 <= s < |t.shiftOfst|
    && t.shiftOfst[s] != t.shiftUseDflt
    && 0 <= i < |t.action|
    && t.lookahead[i] < t.nterm
    && t.lookahead[i] == i - t.shiftOfst[s]
  }

  /** The tables implement the grammar, as witnessed by the certificate. */
  ghost predicate Consistent(g: Grammar, t: Tables, c: Certificate) {
    && WellFormed(t)
    && |c.past| == t.nstate
    && c.past[0] == []
    && |g.rules| == NRule(t)
    && (forall r :: 0 <= r < NRule(t) ==>
          t.ruleInfo[r] == RuleInfo(g.rules[r].lhs, |g.rules[r].rhs|))
    && (forall s :: 0 <= s < t.nstate ==> RestOk(g, t, c, s, t.dflt[s]))
    && (forall s, i :: ShiftEntry(t, s, i) ==>
          TransitionOk(t, c, s, t.lookahead[i], t.action[i]) || RestOk(g, t, c, s, t.action[i]))
    && (t.mode.ErrorSymbol? ==> forall s :: 0 <= s < |t.reduceOfst| ==>
          ErrorGotoOk(t, c, s, t.reduceOfst[s] + t.mode.symbol))
  }

  /** An entry for the error symbol either shifts it or is no shift at all. */
  ghost predicate ErrorGotoOk(t: Tables, c: Certificate, s: nat, i: int)
    requires |c.past| == t.nstate && |t.action| == |t.lookahead| && s < t.nstate
    requires t.mode.ErrorSymbol?
  {
    Hit(t, i, t.mode.symbol) && t.action[i] < t.nstate ==> TransitionOk(t, c, s, t.mode.symbol, t.action[i])
  }

  /** What any shift lookup may answer: a transition on a symbol the token plays, a
      supported reduce, or the error action — never acceptance. */
  lemma {:induction false} ShiftActionSound(g: Grammar, t: Tables, c: Certificate, s: nat, la: Symbol)
    requires Consistent(g, t, c) && s < t.nstate && la < t.nterm
    ensures var act := FindShiftAction(t, s, la);
            || RestOk(g, t, c, s, act)
            || exists x :: Plays(t, la, x) && TransitionOk(t, c, s, x, act)
    decreases FallbackRank(t, la)
  {
    var act := FindShiftAction(t, s, la);
    if s >= |t.shiftOfst| || t.shiftOfst[s] == t.shiftUseDflt {
    } else if Hit(t, t.shiftOfst[s] + la, la) {
      assert ShiftEntry(t, s, t.shiftOfst[s] + la) && Plays(t, la, la);
    } else if 0 < la < |t.fallback| && t.fallback[la] != 0 {
      ShiftActionSound(g, t, c, s, t.fallback[la]);
      if !RestOk(g, t, c, s, act) {
        var x :| Plays(t, t.fallback[la], x) && TransitionOk(t, c, s, x, act);
        assert Plays(t, la, x);
      }
    } else if 0 < la && t.wildcard.Some? && Hit(t, t.shiftOfst[s] + t.wildcard.value, t.wildcard.value) {
      assert ShiftEntry(t, s, t.shiftOfst[s] + t.wildcard.value) && Plays(t, la, t.wildcard.value);
    }
  }

  // --- The lookup against the fallback chain ---

  predicate HasFallback(t: Tables, x: Symbol) {
    0 < x < |t.fallback| && t.fallback[x] != 0
  }

  /** The symbols tried for a token: itself, its fallback, the fallback of that, and so on to
      the end. */
  ghost predicate IsChain(t: Tables, la: Symbol, xs: seq<Symbol>) {
    && xs != [] && xs[0] == la
    && (forall i :: 0 <= i < |xs| - 1 ==> HasFallback(t, xs[i]) && xs[i + 1] == t.fallback[xs[i]])
    && !HasFallback(t, xs[|xs| - 1])
  }

  /** Every token has a chain. */
  lemma {:induction false} ChainExists(t: Tables, la: Symbol) returns (xs: seq<Symbol>)
    requires WellFormed(t) && la < t.nterm
    ensures IsChain(t, la, xs)
    decreases FallbackRank(t, la)
  {
    xs := [la];
    if HasFallback(t, la) {
      var more := ChainExists(t, t.fallback[la]);
      xs := [la] + more;
      forall i | 0 <= i < |xs| - 1 ensures HasFallback(t, xs[i]) && xs[i + 1] == t.fallback[xs[i]] {
        if i > 0 {
          assert xs[i] == more[i - 1] && xs[i + 1] == more[i];
        }
      }
    }
  }

  /** State `s` has an entry of its own for terminal `x`. */
  predicate Listed(t: Tables, s: nat, x: Symbol)
    requires |t.action| == |t.lookahead|
  {
    s < |t.shiftOfst| && t.shiftOfst[s] != t.shiftUseDflt && Hit(t, t.shiftOfst[s] + x, x)
  }

  /** `x` is the symbol whose entry answers: the first of the chain that state `s` lists, or,
      if it lists none and the chain does not end in the end of input, the wildcard. */
  ghost predicate Decides(t: Tables, s: nat, xs: seq<Symbol>, x: Symbol)
    requires |t.action| == |t.lookahead| && xs != []
  {
    && Listed(t, s, x)
    && (|| (exists i :: 0 <= i < |xs| && xs[i] == x && forall j :: 0 <= j < i ==> !Listed(t, s, xs[j]))
        || ((forall j :: 0 <= j < |xs| ==> !Listed(t, s, xs[j])) && xs[|xs| - 1] > 0 && t.wildcard == Some(x)))
  }

  /** The action is that of the symbol that answers, and the default exactly if none does. */
  lemma {:induction false} ShiftActionExact(t: Tables, s: nat, la: Symbol, xs: seq<Symbol>)
    requires WellFormed(t) && s < t.nstate && la < t.nterm && IsChain(t, la, xs)
    ensures var act := FindShiftAction(t, s, la);
            && (forall x: Symbol :: Decides(t, s, xs, x) ==> act == t.action[t.shiftOfst[s] + x])
            && ((forall x: Symbol :: !Decides(t, s, xs, x)) ==> act == t.dflt[s])
    decreases |xs|
  {
    if |xs| > 1 && !Listed(t, s, la) && s < |t.shiftOfst| && t.shiftOfst[s] != t.shiftUseDflt {
      var more := xs[1..];
      assert HasFallback(t, xs[0]) && xs[1] == t.fallback[xs[0]];
      assert forall i :: 0 <= i < |more| ==> more[i] == xs[i + 1];
      ShiftActionExact(t, s, t.fallback[la], more);
      DecidesTail(t, s, xs);
    } else {
      FirstDecides(t, s, la, xs);
    }
  }

  /** If the first symbol of a chain is not listed, the rest of it answers. */
  lemma DecidesTail(t: Tables, s: nat, xs: seq<Symbol>)
    requires |t.action| == |t.lookahead| && |xs| > 1 && !Listed(t, s, xs[0])
    ensures forall x: Symbol :: Decides(t, s, xs, x) <==> Decides(t, s, xs[1..], x)
  {
    hide Listed;
    var more := xs[1..];
    forall x: Symbol ensures Decides(t, s, xs, x) <==> Decides(t, s, more, x) {
      assert forall i :: 0 <= i < |more| ==> more[i] == xs[i + 1];
      assert (forall j :: 0 <= j < |xs| ==> !Listed(t, s, xs[j])) <==> (forall j :: 0 <= j < |more| ==> !Listed(t, s, more[j])) by {
        if forall j :: 0 <= j < |more| ==> !Listed(t, s, more[j]) {
          forall j | 0 <= j < |xs| ensures !Listed(t, s, xs[j]) {
            assert j > 0 ==> xs[j] == more[j - 1];
          }
        }
      }
      if Listed(t, s, x) {
        if i :| 0 <= i < |xs| && xs[i] == x && forall j :: 0 <= j < i ==> !Listed(t, s, xs[j]) {
          assert i > 0 && more[i - 1] == x;
          assert forall j :: 0 <= j < i - 1 ==> !Listed(t, s, more[j]);
        }
        if i :| 0 <= i < |more| && more[i] == x && forall j :: 0 <= j < i ==> !Listed(t, s, more[j]) {
          assert xs[i + 1] == x;
          assert forall j :: 0 <= j < i + 1 ==> !Listed(t, s, xs[j]) by {
            forall j | 0 <= j < i + 1 ensures !Listed(t, s, xs[j]) {
              assert j > 0 ==> xs[j] == more[j - 1];
            }
          }
        }
      }
    }
  }

  /** A state without entries, a listed token, or a token without fallback. */
  lemma FirstDecides(t: Tables, s: nat, la: Symbol, xs: seq<Symbol>)
    requires WellFormed(t) && s < t.nstate && la < t.nterm && IsChain(t, la, xs)
    requires |xs| == 1 || Listed(t, s, la) || s >= |t.shiftOfst| || t.shiftOfst[s] == t.shiftUseDflt
    ensures var act := FindShiftAction(t, s, la);
            && (forall x: Symbol :: Decides(t, s, xs, x) ==> act == t.action[t.shiftOfst[s] + x])
            && ((forall x: Symbol :: !Decides(t, s, xs, x)) ==> act == t.dflt[s])
  {
    var act := FindShiftAction(t, s, la);
    if Listed(t, s, la) {
      assert Decides(t, s, xs, la);
      forall x: Symbol | Decides(t, s, xs, x) ensures x == la {
        assert xs[0] == la;
      }
    } else if s < |t.shiftOfst| && t.shiftOfst[s] != t.shiftUseDflt {
      assert xs == [la];
      if t.wildcard.Some? && la > 0 && Listed(t, s, t.wildcard.value) {
        assert Decides(t, s, xs, t.wildcard.value);
      }
    }
  }
}
