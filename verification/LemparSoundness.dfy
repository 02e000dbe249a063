/** Soundness of the driver: for every grammar, every table set consistent with it and
    every run, the trees on the stack spell the tokens kept so far, an accepted tree
    derives those tokens from the start symbol, and error reports are spaced out. */
module LemparSoundness {
  import opened Options
  import opened LemparTables
  import opened LemparMachine

  // --- Trees, their yields, and the words they derive ---

  ghost predicate ValidTree(g: Grammar, t: Tables, tree: Tree, x: Symbol)
    requires WellFormed(t)
    decreases tree
  {
    match tree
    case Leaf(tok) => Plays(t, tok.major, x)
    case ErrorMark => t.mode == ErrorSymbol(x)
    case Node(r, kids) =>
      && r < |g.rules|
      && g.rules[r].lhs == x
      && |kids| == |g.rules[r].rhs|
      && forall i :: 0 <= i < |kids| ==> ValidTree(g, t, kids[i], g.rules[r].rhs[i])
  }

  function Yield(tree: Tree): seq<Token>
    decreases tree, 1
  {
    match tree
    case Leaf(tok) => [tok]
    case ErrorMark => []
    case Node(_, kids) => YieldAll(kids)
  }

  function YieldAll(ts: seq<Tree>): seq<Token>
    decreases ts, 0
  {
    if ts == [] then [] else YieldAll(ts[..|ts| - 1]) + Yield(ts[|ts| - 1])
  }

  lemma {:induction false} YieldAllConcat(a: seq<Tree>, b: seq<Tree>)
    ensures YieldAll(a + b) == YieldAll(a) + YieldAll(b)
    decreases |b|
  {
    if b == [] {
      assert a + b == a;
    } else {
      assert (a + b)[..|a + b| - 1] == a + b[..|b| - 1];
      YieldAllConcat(a, b[..|b| - 1]);
    }
  }

  /** `beta` comes from `alpha` by `n` rewritings of one nonterminal by a rule. */
  ghost predicate Derives(g: Grammar, alpha: seq<Symbol>, beta: seq<Symbol>, n: nat)
    decreases n
  {
    if n == 0 then alpha == beta
    else exists i, r :: Rewrites(g, alpha, i, r) && Derives(g, Rewrite(g, alpha, i, r), beta, n - 1)
  }

  ghost predicate Rewrites(g: Grammar, alpha: seq<Symbol>, i: int, r: int) {
    0 <= i < |alpha| && 0 <= r < |g.rules| && g.rules[r].lhs == alpha[i]
  }

  ghost function Rewrite(g: Grammar, alpha: seq<Symbol>, i: int, r: int): seq<Symbol>
    requires Rewrites(g, alpha, i, r)
  {
    alpha[..i] + g.rules[r].rhs + alpha[i + 1..]
  }

  lemma {:induction false} DerivesInContext(g: Grammar, u: seq<Symbol>, a: seq<Symbol>, b: seq<Symbol>, v: seq<Symbol>, n: nat)
    requires Derives(g, a, b, n)
    ensures Derives(g, u + a + v, u + b + v, n)
    decreases n
  {
    if n > 0 {
      var i, r :| Rewrites(g, a, i, r) && Derives(g, Rewrite(g, a, i, r), b, n - 1);
      DerivesInContext(g, u, Rewrite(g, a, i, r), b, v, n - 1);
      RewriteInContext(g, u, a, v, i, r);
      hide Rewrite;
      assert Rewrites(g, u + a + v, |u| + i, r) && Derives(g, Rewrite(g, u + a + v, |u| + i, r), u + b + v, n - 1);
    }
  }

  lemma RewriteInContext(g: Grammar, u: seq<Symbol>, a: seq<Symbol>, v: seq<Symbol>, i: int, r: int)
    requires Rewrites(g, a, i, r)
    ensures Rewrites(g, u + a + v, |u| + i, r)
    ensures Rewrite(g, u + a + v, |u| + i, r) == u + Rewrite(g, a, i, r) + v
  {
  }

  lemma {:induction false} DerivesTrans(g: Grammar, a: seq<Symbol>, b: seq<Symbol>, c: seq<Symbol>, m: nat, n: nat)
    requires Derives(g, a, b, m) && Derives(g, b, c, n)
    ensures Derives(g, a, c, m + n)
    decreases m
  {
    if m > 0 {
      var i, r :| Rewrites(g, a, i, r) && Derives(g, Rewrite(g, a, i, r), b, m - 1);
      DerivesTrans(g, Rewrite(g, a, i, r), b, c, m - 1, n);
    }
  }

  /** One place of a derived word: the terminal standing there and the token that plays
      it, or no token where the parser put the error symbol. */
  datatype Slot = Slot(tok: Option<Token>, sym: Symbol)

  function Syms(w: seq<Slot>): (r: seq<Symbol>)
    ensures |r| == |w|
  {
    seq(|w|, i requires 0 <= i < |w| => w[i].sym)
  }

  function Toks(w: seq<Slot>): seq<Token> {
    if w == [] then []
    else Toks(w[..|w| - 1]) + (match w[|w| - 1].tok case Some(k) => [k] case None => [])
  }

  ghost predicate SlotsOk(t: Tables, w: seq<Slot>)
    requires WellFormed(t)
  {
    forall i :: 0 <= i < |w| ==>
      match w[i].tok
      case Some(k) => Plays(t, k.major, w[i].sym)
      case None => t.mode == ErrorSymbol(w[i].sym)
  }

  /** `toks` derives from `alpha` up to fallback and wildcard substitution, with the error
      symbol standing for no token. */
  ghost predicate Spells(g: Grammar, t: Tables, alpha: seq<Symbol>, toks: seq<Token>)
    requires WellFormed(t)
  {
    exists w, n: nat :: SlotsOk(t, w) && Toks(w) == toks && Derives(g, alpha, Syms(w), n)
  }

  lemma {:induction false} ToksConcat(a: seq<Slot>, b: seq<Slot>)
    ensures Toks(a + b) == Toks(a) + Toks(b)
    decreases |b|
  {
    if b == [] {
      assert a + b == a;
    } else {
      assert (a + b)[..|a + b| - 1] == a + b[..|b| - 1];
      ToksConcat(a, b[..|b| - 1]);
    }
  }

  lemma DerivesBoth(g: Grammar, a: seq<Symbol>, w: seq<Symbol>, m: nat, b: seq<Symbol>, v: seq<Symbol>, n: nat)
    requires Derives(g, a, w, m) && Derives(g, b, v, n)
    ensures Derives(g, a + b, w + v, m + n)
  {
    hide Derives;
    DerivesInContext(g, [], a, w, b, m);
    assert [] + a + b == a + b && [] + w + b == w + b;
    DerivesInContext(g, w, b, v, [], n);
    assert w + b + [] == w + b && w + v + [] == w + v;
    DerivesTrans(g, a + b, w + b, w + v, m, n);
  }

  lemma SlotsConcat(t: Tables, w: seq<Slot>, v: seq<Slot>)
    requires WellFormed(t) && SlotsOk(t, w) && SlotsOk(t, v)
    ensures SlotsOk(t, w + v) && Syms(w + v) == Syms(w) + Syms(v) && Toks(w + v) == Toks(w) + Toks(v)
  {
    hide WellFormed;
    ToksConcat(w, v);
  }

  lemma SpellsConcat(g: Grammar, t: Tables, a: seq<Symbol>, x: seq<Token>, b: seq<Symbol>, y: seq<Token>)
    requires WellFormed(t) && Spells(g, t, a, x) && Spells(g, t, b, y)
    ensures Spells(g, t, a + b, x + y)
  {
    hide WellFormed, SlotsOk, Derives, Toks, Syms;
    var w, m: nat :| SlotsOk(t, w) && Toks(w) == x && Derives(g, a, Syms(w), m);
    var v, n: nat :| SlotsOk(t, v) && Toks(v) == y && Derives(g, b, Syms(v), n);
    DerivesBoth(g, a, Syms(w), m, b, Syms(v), n);
    SlotsConcat(t, w, v);
  }

  /** A valid tree is a derivation of its yield. */
  lemma {:induction false} TreeDerives(g: Grammar, t: Tables, tree: Tree, x: Symbol)
    requires WellFormed(t) && ValidTree(g, t, tree, x)
    ensures Spells(g, t, [x], Yield(tree))
    decreases tree, 1
  {
    match tree
    case Leaf(tok) =>
      var w := [Slot(Some(tok), x)];
      assert Toks(w[..0]) == [] && Toks(w) == [tok];
      assert Derives(g, [x], Syms(w), 0) by { assert Syms(w) == [x]; }
      assert SlotsOk(t, w);
    case ErrorMark =>
      var w := [Slot(None, x)];
      assert Toks(w[..0]) == [] && Toks(w) == [];
      assert Derives(g, [x], Syms(w), 0) by { assert Syms(w) == [x]; }
      assert SlotsOk(t, w);
    case Node(r, kids) =>
      TreesDerive(g, t, kids, g.rules[r].rhs);
      var w, n: nat :| SlotsOk(t, w) && Toks(w) == YieldAll(kids) && Derives(g, g.rules[r].rhs, Syms(w), n);
      assert Rewrites(g, [x], 0, r) && Rewrite(g, [x], 0, r) == g.rules[r].rhs;
      assert Derives(g, [x], Syms(w), n + 1);
  }

  lemma {:induction false} TreesDerive(g: Grammar, t: Tables, ts: seq<Tree>, xs: seq<Symbol>)
    requires WellFormed(t) && |ts| == |xs|
    requires forall i :: 0 <= i < |ts| ==> ValidTree(g, t, ts[i], xs[i])
    ensures Spells(g, t, xs, YieldAll(ts))
    decreases ts, 0
  {
    if ts == [] {
      assert Derives(g, xs, Syms([]), 0) && Toks([]) == [] && SlotsOk(t, []);
    } else {
      var k := |ts| - 1;
      TreesDerive(g, t, ts[..k], xs[..k]);
      TreeDerives(g, t, ts[k], xs[k]);
      SpellsConcat(g, t, xs[..k], YieldAll(ts[..k]), [xs[k]], Yield(ts[k]));
      assert xs[..k] + [xs[k]] == xs;
    }
  }

  // --- The stack invariant ---

  /** Everything the state of entry `k` knows about the entries below it is true. */
  ghost predicate Fits(g: Grammar, t: Tables, c: Certificate, stack: seq<Entry>, k: nat)
    requires WellFormed(t) && |c.past| == t.nstate && k < |stack| && stack[k].state < t.nstate
  {
    var p := c.past[stack[k].state];
    && |p| <= k
    && forall i :: 0 <= i < |p| ==>
         ValidTree(g, t, stack[k - i].minor, p[i].sym) && stack[k - i - 1].state in p[i].below
  }

  ghost predicate StackOk(g: Grammar, t: Tables, c: Certificate, stack: seq<Entry>)
    requires WellFormed(t) && |c.past| == t.nstate
  {
    && (stack != [] ==> stack[0].state == 0)
    && (forall k :: 0 < k < |stack| ==> 0 < stack[k].state < t.nstate)
    && (forall k :: 0 <= k < |stack| ==> Fits(g, t, c, stack, k))
  }

  lemma StackOkPrefix(g: Grammar, t: Tables, c: Certificate, stack: seq<Entry>, n: nat)
    requires WellFormed(t) && |c.past| == t.nstate && StackOk(g, t, c, stack) && n <= |stack|
    ensures StackOk(g, t, c, stack[..n])
  {
    forall k | 0 <= k < n
      ensures Fits(g, t, c, stack[..n], k)
    {
      assert Fits(g, t, c, stack, k);
    }
  }

  /** Pushing along a certified transition keeps the invariant. */
  lemma StackOkPush(g: Grammar, t: Tables, c: Certificate, stack: seq<Entry>, e: Entry, x: Symbol)
    requires WellFormed(t) && |c.past| == t.nstate && StackOk(g, t, c, stack) && stack != []
    requires TransitionOk(t, c, stack[|stack| - 1].state, x, e.state) && ValidTree(g, t, e.minor, x)
    ensures StackOk(g, t, c, stack + [e])
  {
    var n := |stack|;
    var s := stack + [e];
    forall k | 0 <= k <= n
      ensures Fits(g, t, c, s, k)
    {
      if k < n {
        assert Fits(g, t, c, stack, k);
      } else {
        assert Fits(g, t, c, stack, n - 1);
        var p, q := c.past[e.state], c.past[stack[n - 1].state];
        forall i | 0 <= i < |p|
          ensures ValidTree(g, t, s[n - i].minor, p[i].sym) && s[n - i - 1].state in p[i].below
        {
          if i > 0 {
            assert p[(i - 1) + 1].sym == q[i - 1].sym && q[i - 1].below <= p[(i - 1) + 1].below;
            assert s[n - i] == stack[n - 1 - (i - 1)];
          }
        }
      }
    }
  }

  // --- The observable log ---

  /** The tokens that survive: shifted since the last restart and not popped again. */
  function Kept(log: seq<Event>): seq<Token> {
    if log == [] then []
    else
      var before := Kept(log[..|log| - 1]);
      match log[|log| - 1]
      case Restart => []
      case Shift(tok) => before + [tok]
      case Pop(tree) => if |Yield(tree)| <= |before| then before[..|before| - |Yield(tree)|] else []
      case _ => before
  }

  /** Shifts since the latest report of this parse; None if there was no report. */
  function Since(log: seq<Event>): Option<nat> {
    if log == [] then None
    else
      var before := Since(log[..|log| - 1]);
      match log[|log| - 1]
      case Restart => None
      case Report(_) => Some(0)
      case Shift(_) => if before.Some? then Some(before.value + 1) else None
      case _ => before
  }

  /** Shifts that must lie between two reports.  With an error symbol the test is
      `yyerrcnt < 0`, which asks for one more than the documented three. */
  function Gap(t: Tables): int {
    match t.mode case Plain => 3 case NoRecovery => 0 case ErrorSymbol(_) => 4
  }

  /** Event `k` is justified by the events before it. */
  ghost predicate EventOk(g: Grammar, t: Tables, log: seq<Event>, k: nat)
    requires WellFormed(t) && k < |log|
  {
    match log[k]
    case Accept(tree) => ValidTree(g, t, tree, g.start) && Yield(tree) == Kept(log[..k])
    case Report(_) => Since(log[..k]).Some? ==> Since(log[..k]).value >= Gap(t)
    case Pop(_) => t.mode.ErrorSymbol?
    case _ => true
  }

  ghost predicate LogOk(g: Grammar, t: Tables, log: seq<Event>)
    requires WellFormed(t)
  {
    forall k :: 0 <= k < |log| ==> EventOk(g, t, log, k)
  }

  ghost predicate Inv(g: Grammar, t: Tables, c: Certificate, st: State)
    requires WellFormed(t) && |c.past| == t.nstate
  {
    && Bounded(t, st)
    && LogOk(g, t, st.log)
    && (st.stack != [] ==>
          && StackOk(g, t, c, st.stack)
          && YieldAll(Minors(st.stack[1..])) == Kept(st.log)
          && (t.mode != NoRecovery && Since(st.log).Some? ==> st.errcnt + Since(st.log).value >= 3))
  }

  lemma LogOkSnoc(g: Grammar, t: Tables, log: seq<Event>, e: Event)
    requires WellFormed(t) && LogOk(g, t, log)
    requires EventOk(g, t, log + [e], |log|)
    ensures LogOk(g, t, log + [e])
    ensures (log + [e])[..|log|] == log
  {
    assert (log + [e])[..|log|] == log;
    forall k | 0 <= k < |log|
      ensures EventOk(g, t, log + [e], k)
    {
      assert EventOk(g, t, log, k);
      assert (log + [e])[..k] == log[..k];
    }
  }

  lemma MinorsSnoc(stack: seq<Entry>, e: Entry)
    requires stack != []
    ensures YieldAll(Minors((stack + [e])[1..])) == YieldAll(Minors(stack[1..])) + Yield(e.minor)
  {
    assert (stack + [e])[1..] == stack[1..] + [e];
    var ts := Minors((stack + [e])[1..]);
    assert ts[..|ts| - 1] == Minors(stack[1..]);
  }

  /** A push along a certified transition, whether it lands or overflows. */
  lemma PushKeeps(g: Grammar, t: Tables, c: Certificate, st: State, e: Entry, x: Symbol, alloc: bool)
    requires Consistent(g, t, c) && Bounded(t, st) && st.stack != [] && LogOk(g, t, st.log)
    requires StackOk(g, t, c, st.stack) && TransitionOk(t, c, Top(st).state, x, e.state)
    requires ValidTree(g, t, e.minor, x)
    ensures var r := Push(t, st, e, alloc);
            && Bounded(t, r)
            && LogOk(g, t, r.log)
            && r.errcnt == st.errcnt
            && (r.stack != [] ==>
                  && r.stack == st.stack + [e]
                  && r.log == st.log
                  && StackOk(g, t, c, r.stack)
                  && YieldAll(Minors(r.stack[1..])) == YieldAll(Minors(st.stack[1..])) + Yield(e.minor))
  {
    var r := Push(t, st, e, alloc);
    if r.stack == [] {
      LogOkSnoc(g, t, st.log, Overflow);
    } else {
      StackOkPush(g, t, c, st.stack, e, x);
      MinorsSnoc(st.stack, e);
    }
  }

  /** The stack below a state whose right-hand side is known holds that right-hand side. */
  lemma ReduceKids(g: Grammar, t: Tables, c: Certificate, st: State, r: nat)
    requires WellFormed(t) && |c.past| == t.nstate && st.stack != [] && Top(st).state < t.nstate
    requires Fits(g, t, c, st.stack, |st.stack| - 1) && ReduceOk(g, t, c, Top(st).state, r)
    ensures r < |g.rules|
    ensures var rhs := g.rules[r].rhs;
            var k := |st.stack| - |rhs|;
            && 0 < k
            && (forall i :: 0 <= i < |rhs| ==> ValidTree(g, t, Minors(st.stack[k..])[i], rhs[i]))
            && GotoOk(g, t, c, st.stack[k - 1].state, g.rules[r].lhs)
  {
    hide WellFormed, ValidTree, GotoOk;
    var n := |st.stack|;
    var rhs := g.rules[r].rhs;
    var k := n - |rhs|;
    var p := c.past[Top(st).state];
    forall i | 0 <= i < |rhs|
      ensures ValidTree(g, t, Minors(st.stack[k..])[i], rhs[i])
    {
      var j := |rhs| - 1 - i;
      assert ValidTree(g, t, st.stack[n - 1 - j].minor, p[j].sym);
      assert p[j].sym == rhs[|rhs| - 1 - j];
    }
    if |rhs| > 0 {
      assert st.stack[n - 1 - (|rhs| - 1) - 1].state in p[|rhs| - 1].below;
    }
  }

  lemma YieldSplit(stack: seq<Entry>, k: nat)
    requires 0 < k <= |stack|
    ensures YieldAll(Minors(stack[1..])) == YieldAll(Minors(stack[..k][1..])) + YieldAll(Minors(stack[k..]))
  {
    hide YieldAll;
    assert Minors(stack[1..]) == Minors(stack[..k][1..]) + Minors(stack[k..]);
    YieldAllConcat(Minors(stack[..k][1..]), Minors(stack[k..]));
  }

  lemma NodeValid(g: Grammar, t: Tables, c: Certificate, r: nat, kids: seq<Tree>)
    requires Consistent(g, t, c) && r < |g.rules| && |kids| == |g.rules[r].rhs|
    requires forall i :: 0 <= i < |kids| ==> ValidTree(g, t, kids[i], g.rules[r].rhs[i])
    ensures r < NRule(t) && t.ruleInfo[r] == RuleInfo(g.rules[r].lhs, |g.rules[r].rhs|)
    ensures ValidTree(g, t, Node(r, kids), g.rules[r].lhs)
    ensures Yield(Node(r, kids)) == YieldAll(kids)
  {
    hide WellFormed, RestOk, TransitionOk, ShiftEntry, ErrorGotoOk;
  }

  /** A certified reduce never reaches entry 0, and the node it builds is valid and spells
      exactly what its children spelled. */
  lemma ReduceNode(g: Grammar, t: Tables, c: Certificate, st: State, r: nat)
    requires Consistent(g, t, c) && st.stack != [] && StackOk(g, t, c, st.stack)
    requires ReduceOk(g, t, c, Top(st).state, r)
    ensures CanReduce(t, st, r)
    ensures var k := |st.stack| - t.ruleInfo[r].nrhs;
            && ValidTree(g, t, Node(r, Minors(st.stack[k..])), t.ruleInfo[r].lhs)
            && GotoOk(g, t, c, st.stack[k - 1].state, t.ruleInfo[r].lhs)
            && YieldAll(Minors(st.stack[1..])) ==
                 YieldAll(Minors(st.stack[..k][1..])) + Yield(Node(r, Minors(st.stack[k..])))
  {
    hide Fits, ReduceOk, ValidTree, YieldAll, Yield, Minors;
    assert Fits(g, t, c, st.stack, |st.stack| - 1);
    ReduceKids(g, t, c, st, r);
    hide StackOk;
    var k := |st.stack| - |g.rules[r].rhs|;
    NodeValid(g, t, c, r, Minors(st.stack[k..]));
    hide Consistent;
    YieldSplit(st.stack, k);
  }

  lemma ReduceKeeps(g: Grammar, t: Tables, c: Certificate, st: State, r: nat, alloc: bool)
    requires Consistent(g, t, c) && Inv(g, t, c, st) && st.stack != []
    requires ReduceOk(g, t, c, Top(st).state, r)
    ensures CanReduce(t, st, r)
    ensures Inv(g, t, c, Reduce(t, st, r, alloc))
  {
    ReduceNode(g, t, c, st, r);
    var k := |st.stack| - t.ruleInfo[r].nrhs;
    var lhs := t.ruleInfo[r].lhs;
    var node := Node(r, Minors(st.stack[k..]));
    var base := st.(stack := st.stack[..k]);
    var act := FindReduceAction(t, Top(base).state, lhs);
    StackOkPrefix(g, t, c, st.stack, k);
    if act < t.nstate {
      PushKeeps(g, t, c, base, Entry(act, lhs, node), lhs, alloc);
    } else {
      assert k == 1;
      assert YieldAll(Minors(st.stack[..k][1..])) == [];
      assert (st.log + [Accept(node)])[..|st.log|] == st.log;
      LogOkSnoc(g, t, st.log, Accept(node));
    }
  }

  // --- Error recovery ---

  /** What popping for the error symbol keeps: everything but the report counter. */
  ghost predicate PopInv(g: Grammar, t: Tables, c: Certificate, st: State)
    requires WellFormed(t) && |c.past| == t.nstate
  {
    && Bounded(t, st) && LogOk(g, t, st.log) && StackOk(g, t, c, st.stack)
    && (st.stack != [] ==> YieldAll(Minors(st.stack[1..])) == Kept(st.log))
  }

  lemma PopOneKeeps(g: Grammar, t: Tables, c: Certificate, st: State)
    requires Consistent(g, t, c) && t.mode.ErrorSymbol? && PopInv(g, t, c, st) && st.stack != []
    ensures PopInv(g, t, c, PopOne(st))
    ensures Since(PopOne(st).log) == Since(st.log)
  {
    hide WellFormed, Fits, ValidTree, TransitionOk, RestOk, ShiftEntry, ErrorGotoOk, EventOk, YieldAll, Yield;
    var k := |st.stack| - 1;
    StackOkPrefix(g, t, c, st.stack, k);
    if k > 0 {
      var e := Pop(Top(st).minor);
      LogOkSnoc(g, t, st.log, e);
      assert st.stack[..k] + [Top(st)] == st.stack;
      MinorsSnoc(st.stack[..k], Top(st));
      var before := YieldAll(Minors(st.stack[..k][1..]));
      assert Kept(st.log)[..|before|] == before;
    }
  }

  lemma {:induction false} PopKeeps(g: Grammar, t: Tables, c: Certificate, st: State)
    requires Consistent(g, t, c) && t.mode.ErrorSymbol? && PopInv(g, t, c, st)
    ensures PopInv(g, t, c, PopToError(t, st))
    ensures Since(PopToError(t, st).log) == Since(st.log)
    decreases |st.stack|
  {
    if st.stack != [] && FindReduceAction(t, Top(st).state, t.mode.symbol) >= t.nstate {
      PopOneKeeps(g, t, c, st);
      PopKeeps(g, t, c, PopOne(st));
    }
  }

  /** The report, if `due`, and the reset of the error counter. */
  lemma TellKeeps(g: Grammar, t: Tables, c: Certificate, st: State, tok: Token, due: bool)
    requires Consistent(g, t, c) && Inv(g, t, c, st) && st.stack != []
    requires due && Since(st.log).Some? ==> Since(st.log).value >= Gap(t)
    ensures var told := (if due then Emit(st, [Report(tok)]) else st).(errcnt := 3);
            Inv(g, t, c, told) && Kept(told.log) == Kept(st.log)
  {
    if due {
      assert (st.log + [Report(tok)])[..|st.log|] == st.log;
      LogOkSnoc(g, t, st.log, Report(tok));
    }
  }

  lemma DiscardKeeps(g: Grammar, t: Tables, c: Certificate, st: State, tok: Token)
    requires Consistent(g, t, c) && Inv(g, t, c, st)
    ensures Inv(g, t, c, Emit(st, [Discard(tok)]))
    ensures Kept(st.log + [Discard(tok)]) == Kept(st.log)
  {
    LogOkSnoc(g, t, st.log, Discard(tok));
  }

  lemma FailKeeps(g: Grammar, t: Tables, c: Certificate, st: State)
    requires Consistent(g, t, c) && Inv(g, t, c, st)
    ensures Inv(g, t, c, Emit(st, [Fail]).(stack := []))
  {
    LogOkSnoc(g, t, st.log, Fail);
  }

  /** Where the error symbol can be shifted, it is shifted along a certified transition. */
  lemma ErrorTransition(g: Grammar, t: Tables, c: Certificate, s: nat)
    requires Consistent(g, t, c) && t.mode.ErrorSymbol? && s < t.nstate
    ensures var act := FindReduceAction(t, s, t.mode.symbol);
            act < t.nstate ==> TransitionOk(t, c, s, t.mode.symbol, act)
  {
    hide TransitionOk;
    assert RestOk(g, t, c, s, t.dflt[s]);
    assert s < |t.reduceOfst| ==> ErrorGotoOk(t, c, s, t.reduceOfst[s] + t.mode.symbol);
  }

  lemma RecoverKeeps(g: Grammar, t: Tables, c: Certificate, told: State, tok: Token, alloc: bool)
    requires Consistent(g, t, c) && t.mode.ErrorSymbol?
    requires Inv(g, t, c, told) && told.stack != [] && told.errcnt == 3
    ensures forall k :: 0 <= k < |told.stack| ==> told.stack[k].state < t.nstate
    ensures Inv(g, t, c, Recover(t, told, tok, alloc).st)
  {
    hide FindReduceAction, TransitionOk, RestOk, ErrorGotoOk;
    var popped := PopToError(t, told);
    PopKeeps(g, t, c, told);
    if popped.stack == [] || tok.major == 0 {
      DiscardKeeps(g, t, c, popped, tok);
      FailKeeps(g, t, c, Emit(popped, [Discard(tok)]));
      assert popped.log + [Discard(tok)] + [Fail] == popped.log + [Discard(tok), Fail];
    } else {
      var s := Top(popped).state;
      var act := FindReduceAction(t, s, t.mode.symbol);
      ErrorTransition(g, t, c, s);
      PushKeeps(g, t, c, popped, Entry(act, t.mode.symbol, ErrorMark), t.mode.symbol, alloc);
    }
  }

  lemma ErrorKeeps(g: Grammar, t: Tables, c: Certificate, st: State, tok: Token, hit: bool, alloc: bool)
    requires Consistent(g, t, c) && Inv(g, t, c, st) && st.stack != []
    ensures forall k :: 0 <= k < |st.stack| ==> st.stack[k].state < t.nstate
    ensures Inv(g, t, c, HandleError(t, st, tok, hit, alloc).st)
  {
    match t.mode
    case NoRecovery =>
      assert (st.log + [Report(tok)])[..|st.log|] == st.log;
      LogOkSnoc(g, t, st.log, Report(tok));
      LogOkSnoc(g, t, st.log + [Report(tok)], Discard(tok));
      assert st.log + [Report(tok)] + [Discard(tok)] == st.log + [Report(tok), Discard(tok)];
    case Plain =>
      TellKeeps(g, t, c, st, tok, st.errcnt <= 0);
      var told := (if st.errcnt <= 0 then Emit(st, [Report(tok)]) else st).(errcnt := 3);
      DiscardKeeps(g, t, c, told, tok);
      if tok.major == 0 {
        FailKeeps(g, t, c, Emit(told, [Discard(tok)]));
      }
    case ErrorSymbol(err) =>
      TellKeeps(g, t, c, st, tok, st.errcnt < 0);
      var told := (if st.errcnt < 0 then Emit(st, [Report(tok)]) else st).(errcnt := 3);
      if Top(st).major == err || hit {
        DiscardKeeps(g, t, c, told, tok);
      } else {
        RecoverKeeps(g, t, c, told, tok, alloc);
      }
  }

  /** Discarding a token leaves the stack and its yield alone, except that the end of
      input fails the parse. */
  lemma DiscardLeavesStack(t: Tables, st: State, tok: Token, hit: bool, alloc: bool)
    requires WellFormed(t) && st.stack != []
    requires forall k :: 0 <= k < |st.stack| ==> st.stack[k].state < t.nstate
    requires t.mode.ErrorSymbol? ==> hit || Top(st).major == t.mode.symbol
    ensures var r := HandleError(t, st, tok, hit, alloc);
            && r.done
            && (tok.major != 0 || !t.mode.Plain? ==> r.st.stack == st.stack && Kept(r.st.log) == Kept(st.log))
            && (tok.major == 0 && t.mode.Plain? ==> r.st.stack == [])
  {
    KeptSkips(st.log, Report(tok));
    KeptSkips(st.log, Discard(tok));
    KeptSkips(st.log + [Report(tok)], Discard(tok));
    assert st.log + [Report(tok)] + [Discard(tok)] == st.log + [Report(tok), Discard(tok)];
  }

  lemma KeptSkips(log: seq<Event>, e: Event)
    requires e.Report? || e.Discard?
    ensures Kept(log + [e]) == Kept(log)
  {
    assert (log + [e])[..|log|] == log;
  }
}

/** What holds of every run of the driver. */
module LemparTheorems {
  import opened LemparTables
  import opened LemparMachine
  import opened LemparSoundness

  ghost predicate MachineInv(g: Grammar, t: Tables, c: Certificate, m: Machine)
    requires WellFormed(t) && |c.past| == t.nstate
  {
    && Inv(g, t, c, m.st)
    && (m.work.Some? ==> m.st.stack != [] && m.work.value.major < t.nterm)
  }

  lemma EnterKeeps(g: Grammar, t: Tables, c: Certificate, st: State)
    requires Consistent(g, t, c) && Inv(g, t, c, st)
    ensures var r := Enter(t, st);
            Inv(g, t, c, r.st) && (!r.done ==> r.st.stack != [])
  {
    if st.stack == [] {
      if st.size == 0 {
        LogOkSnoc(g, t, st.log, Overflow);
      } else {
        LogOkSnoc(g, t, st.log, Restart);
        assert Fits(g, t, c, [Entry(0, 0, ErrorMark)], 0);
      }
    }
  }

  lemma ShiftKeeps(g: Grammar, t: Tables, c: Certificate, st: State, tok: Token, act: nat, x: Symbol, alloc: bool)
    requires Consistent(g, t, c) && Inv(g, t, c, st) && st.stack != []
    requires Plays(t, tok.major, x) && TransitionOk(t, c, Top(st).state, x, act)
    ensures var pushed := Push(t, st, Entry(act, tok.major, Leaf(tok)), alloc);
            var told := if pushed.stack == [] then pushed else Emit(pushed, [Shift(tok)]);
            Inv(g, t, c, told.(errcnt := told.errcnt - 1))
  {
    var e := Entry(act, tok.major, Leaf(tok));
    PushKeeps(g, t, c, st, e, x, alloc);
    if Push(t, st, e, alloc).stack != [] {
      LogOkSnoc(g, t, st.log, Shift(tok));
    }
  }

  /** Every iteration stays inside the stack and the tables. */
  lemma IterateAllowed(g: Grammar, t: Tables, c: Certificate, st: State, tok: Token)
    requires Consistent(g, t, c) && Inv(g, t, c, st) && st.stack != [] && tok.major < t.nterm
    ensures CanIterate(t, st, tok)
    ensures var act := FindShiftAction(t, Top(st).state, tok.major);
            && (act < t.nstate ==> exists x :: Plays(t, tok.major, x) && TransitionOk(t, c, Top(st).state, x, act))
            && (t.nstate <= act < ErrorAction(t) ==> ReduceOk(g, t, c, Top(st).state, act - t.nstate))
            && act <= ErrorAction(t)
  {
    var act := FindShiftAction(t, Top(st).state, tok.major);
    ShiftActionSound(g, t, c, Top(st).state, tok.major);
    if t.nstate <= act < ErrorAction(t) {
      ReduceNode(g, t, c, st, act - t.nstate);
    }
  }

  /** Every iteration keeps the invariant. */
  lemma IterateKeeps(g: Grammar, t: Tables, c: Certificate, st: State, tok: Token, hit: bool, alloc: bool)
    requires Consistent(g, t, c) && Inv(g, t, c, st) && st.stack != [] && tok.major < t.nterm
    ensures CanIterate(t, st, tok)
    ensures Inv(g, t, c, Iterate(t, st, tok, hit, alloc).st)
  {
    hide Inv, Push, Reduce, HandleError, FindShiftAction, WellFormed, TransitionOk, RestOk, Plays;
    IterateAllowed(g, t, c, st, tok);
    var act := FindShiftAction(t, Top(st).state, tok.major);
    if act < t.nstate {
      var x :| Plays(t, tok.major, x) && TransitionOk(t, c, Top(st).state, x, act);
      ShiftKeeps(g, t, c, st, tok, act, x, alloc);
    } else if act < ErrorAction(t) {
      ReduceKeeps(g, t, c, st, act - t.nstate, alloc);
    } else {
      ErrorKeeps(g, t, c, st, tok, hit, alloc);
    }
  }

  /** No run ever leaves the tables or pops below entry 0, and every reachable state
      satisfies the invariant. */
  lemma {:induction false} RunSafe(g: Grammar, t: Tables, c: Certificate, alloc: bool, actions: seq<Action>)
    requires Consistent(g, t, c)
    ensures var r := Run(t, Init(t, alloc), actions);
            r.Some? && MachineInv(g, t, c, r.value)
    decreases |actions|
  {
    if actions != [] {
      RunSafe(g, t, c, alloc, actions[..|actions| - 1]);
      var m := Run(t, Init(t, alloc), actions[..|actions| - 1]).value;
      match actions[|actions| - 1]
      case Feed(tok) => EnterKeeps(g, t, c, m.st);
      case Go(a) =>
        if m.work.Some? {
          IterateKeeps(g, t, c, m.st, m.work.value, m.hit, a);
        }
    }
  }

  /** Whenever a run accepts, the accepted tree is a derivation from the start symbol of
      exactly the tokens kept in this parse, up to fallback and wildcard substitution. */
  lemma AcceptanceSound(g: Grammar, t: Tables, c: Certificate, alloc: bool, actions: seq<Action>, k: nat)
    requires Consistent(g, t, c)
    requires Run(t, Init(t, alloc), actions).Some?
    requires k < |Run(t, Init(t, alloc), actions).value.st.log|
    requires Run(t, Init(t, alloc), actions).value.st.log[k].Accept?
    ensures var log := Run(t, Init(t, alloc), actions).value.st.log;
            && Yield(log[k].tree) == Kept(log[..k])
            && Spells(g, t, [g.start], Kept(log[..k]))
  {
    RunSafe(g, t, c, alloc, actions);
    var log := Run(t, Init(t, alloc), actions).value.st.log;
    assert EventOk(g, t, log, k);
    TreeDerives(g, t, log[k].tree, g.start);
  }

  /** The tokens shifted since the latest restart. */
  function Shifted(log: seq<Event>): seq<Token> {
    if log == [] then []
    else match log[|log| - 1]
      case Restart => []
      case Shift(tok) => Shifted(log[..|log| - 1]) + [tok]
      case _ => Shifted(log[..|log| - 1])
  }

  /** Without an error symbol nothing is ever popped, so kept means shifted. */
  lemma {:induction false} KeptIsShifted(log: seq<Event>)
    requires forall k :: 0 <= k < |log| ==> !log[k].Pop?
    ensures Kept(log) == Shifted(log)
    decreases |log|
  {
    if log != [] {
      KeptIsShifted(log[..|log| - 1]);
    }
  }

  /** Without an error symbol: acceptance means that all tokens shifted since the parse
      began derive from the start symbol. */
  lemma PlainAcceptance(g: Grammar, t: Tables, c: Certificate, alloc: bool, actions: seq<Action>, k: nat)
    requires Consistent(g, t, c) && !t.mode.ErrorSymbol?
    requires Run(t, Init(t, alloc), actions).Some?
    requires k < |Run(t, Init(t, alloc), actions).value.st.log|
    requires Run(t, Init(t, alloc), actions).value.st.log[k].Accept?
    ensures Spells(g, t, [g.start], Shifted(Run(t, Init(t, alloc), actions).value.st.log[..k]))
  {
    RunSafe(g, t, c, alloc, actions);
    AcceptanceSound(g, t, c, alloc, actions, k);
    var log := Run(t, Init(t, alloc), actions).value.st.log;
    forall j | 0 <= j < k
      ensures !log[..k][j].Pop?
    {
      assert EventOk(g, t, log, j);
    }
    KeptIsShifted(log[..k]);
  }

  function Shifts(log: seq<Event>): nat {
    if log == [] then 0
    else Shifts(log[..|log| - 1]) + if log[|log| - 1].Shift? then 1 else 0
  }

  lemma {:induction false} SinceCounts(log: seq<Event>, i: nat)
    requires i < |log| && log[i].Report?
    requires forall k :: i < k < |log| ==> !log[k].Restart?
    ensures Since(log).Some? && Since(log).value <= Shifts(log[i..])
    decreases |log|
  {
    if i < |log| - 1 {
      SinceCounts(log[..|log| - 1], i);
      assert log[i..][..|log| - i - 1] == log[..|log| - 1][i..];
    } else {
      assert log[i..] == [log[i]];
    }
  }

  /** In any run, two reports of the same parse have at least `Gap` shifts between them:
      three without an error symbol, four with one. */
  lemma ReportsSpaced(g: Grammar, t: Tables, c: Certificate, alloc: bool, actions: seq<Action>, i: nat, j: nat)
    requires Consistent(g, t, c)
    requires Run(t, Init(t, alloc), actions).Some?
    requires i < j < |Run(t, Init(t, alloc), actions).value.st.log|
    requires var log := Run(t, Init(t, alloc), actions).value.st.log;
             log[i].Report? && log[j].Report? && forall k :: i < k < j ==> !log[k].Restart?
    ensures Shifts(Run(t, Init(t, alloc), actions).value.st.log[i..j]) >= Gap(t)
  {
    RunSafe(g, t, c, alloc, actions);
    var log := Run(t, Init(t, alloc), actions).value.st.log;
    assert EventOk(g, t, log, j);
    SinceCounts(log[..j], i);
    assert log[..j][i..] == log[i..j];
  }

  /** Every reachable state admits the inlined push of yy_reduce in place of yy_shift. */
  lemma FastPathInEveryRun(g: Grammar, t: Tables, c: Certificate, alloc: bool, actions: seq<Action>,
                           n: nat, e: Entry, again: bool)
    requires Consistent(g, t, c)
    requires Run(t, Init(t, alloc), actions).Some?
    requires 0 < n < |Run(t, Init(t, alloc), actions).value.st.stack|
    ensures var st := Run(t, Init(t, alloc), actions).value.st;
            Push(t, st.(stack := st.stack[..|st.stack| - n]), e, again) == FastPush(st, n, e)
  {
    RunSafe(g, t, c, alloc, actions);
    FastPathRefines(t, Run(t, Init(t, alloc), actions).value.st, n, e, again);
  }
}
