/** The driver as the template writes it: a mutable stack array, an index, and methods
    that update them.  Each method is proved equal to the step function of the same name. */
module LemparDriver {
  import opened Options
  import opened LemparTables
  import opened LemparMachine
  import opened LemparTheorems

  class Parser {
    const t: Tables
    var yystack: array<Entry>   // its length is yystksz, or YYSTACKDEPTH
    var yyidx: int
    var yyidxMax: int
    var yyerrcnt: int
    var log: seq<Event>         // calls of the user-supplied hooks, oldest first

    ghost predicate Valid()
      reads this
    {
      && WellFormed(t)
      && yyidx < yystack.Length
      && (t.stackDepth > 0 ==> yystack.Length == t.stackDepth)
    }

    ghost function Abs(): State
      reads this, yystack
      requires Valid()
    {
      State(if yyidx < 0 then [] else yystack[..yyidx + 1], yyidxMax, yyerrcnt, yystack.Length, log)
    }

    /** ParseAlloc. */
    constructor (tables: Tables, alloc: bool)
      requires WellFormed(tables)
      ensures t == tables && Valid() && fresh(yystack)
      ensures Abs() == Init(tables, alloc).st
    {
      t := tables;
      yystack := new Entry[if tables.stackDepth > 0 then tables.stackDepth else if alloc then 100 else 0];
      yyidx, yyidxMax, yyerrcnt, log := -1, 0, 0, [];
    }

    /** yyGrowStack: doubles and adds a hundred, keeping the contents. */
    method GrowStack(alloc: bool)
      modifies this`yystack
      ensures alloc ==> fresh(yystack) && yystack.Length == 2 * old(yystack.Length) + 100
                        && yystack[..old(yystack.Length)] == old(yystack[..])
      ensures !alloc ==> yystack == old(yystack)
    {
      if alloc {
        var bigger := new Entry[2 * yystack.Length + 100];
        for i := 0 to yystack.Length
          invariant yystack == old(yystack) && bigger[..i] == yystack[..i]
        {
          bigger[i] := yystack[i];
        }
        yystack := bigger;
      }
    }

    /** yyStackOverflow, yy_accept and yy_parse_failed all empty the stack and call a hook. */
    method Clear(hook: Event)
      requires Valid()
      modifies this`yyidx, this`log
      ensures Valid() && yyidx < 0
      ensures Abs() == old(Abs()).(stack := [], log := old(log) + [hook])
    {
      while yyidx >= 0
        invariant yyidx < yystack.Length && log == old(log)
      {
        yyidx := yyidx - 1;
      }
      log := log + [hook];
    }

    /** Stores an entry at the index just raised; there is room for it. */
    method Store(e: Entry, ghost stack: seq<Entry>)
      requires Valid() && 0 <= yyidx && yystack[..yyidx] == stack
      modifies yystack
      ensures Valid() && Abs() == State(stack + [e], yyidxMax, yyerrcnt, yystack.Length, log)
    {
      yystack[yyidx] := e;
    }

    /** The growth of yy_shift: room for one more entry, if it can be had. */
    method MakeRoom(alloc: bool)
      requires WellFormed(t) && yyidx <= yystack.Length && (t.stackDepth > 0 ==> yystack.Length == t.stackDepth)
      requires 0 <= yyidx
      modifies this`yystack
      ensures yystack == old(yystack) || fresh(yystack)
      ensures yystack.Length == SizeFor(t, old(yystack.Length), yyidx, alloc)
      ensures yyidx <= yystack.Length && yystack[..yyidx] == old(yystack[..yyidx])
    {
      hide WellFormed;
      if t.stackDepth == 0 && yyidx >= yystack.Length {
        assert yystack[..yyidx] == yystack[..];
        GrowStack(alloc);
      }
    }

    /** yy_shift. */
    method Shift(newState: nat, major: Symbol, minor: Tree, alloc: bool)
      requires Valid() && -1 <= yyidx
      modifies this, yystack
      ensures Valid() && (yystack == old(yystack) || fresh(yystack))
      ensures Abs() == Push(t, old(Abs()), Entry(newState, major, minor), alloc)
    {
      hide WellFormed;
      ghost var stack := Abs().stack;
      yyidx := yyidx + 1;
      assert yystack[..yyidx] == stack;
      if yyidx > yyidxMax {
        yyidxMax := yyidx;
      }
      MakeRoom(alloc);
      if yyidx >= yystack.Length {
        yyidx := yyidx - 1;
        Clear(Overflow);
      } else {
        Store(Entry(newState, major, minor), stack);
      }
    }

    /** yy_reduce with the inlined push of an optimised build.  The bound on the stack is
        what every reachable state satisfies. */
    method ReduceBy(r: nat, alloc: bool)
      requires Valid() && Bounded(t, Abs()) && CanReduce(t, Abs(), r)
      modifies this, yystack
      ensures Valid() && (yystack == old(yystack) || fresh(yystack))
      ensures Abs() == Reduce(t, old(Abs()), r, alloc)
    {
      ghost var st := Abs();
      var goto := t.ruleInfo[r].lhs;
      var size := t.ruleInfo[r].nrhs;
      var node := Node(r, Minors(yystack[yyidx + 1 - size..yyidx + 1]));
      assert yystack[yyidx + 1 - size..yyidx + 1] == st.stack[|st.stack| - size..];
      yyidx := yyidx - size;
      assert Abs() == st.(stack := st.stack[..|st.stack| - size]);
      var act := FindReduceAction(t, yystack[yyidx].state, goto);
      if act < t.nstate {
        if size > 0 {
          yyidx := yyidx + 1;
          yystack[yyidx] := Entry(act, goto, node);
          assert Abs().stack == FastPush(st, size, Entry(act, goto, node)).stack;
          FastPathRefines(t, st, size, Entry(act, goto, node), alloc);
        } else {
          Shift(act, goto, node, alloc);
        }
      } else {
        Clear(Accept(node));
      }
    }

    /** yy_pop_parser_stack. */
    method PopStack()
      requires Valid() && 0 <= yyidx
      modifies this`yyidx, this`log
      ensures Valid() && Abs() == PopOne(old(Abs())) && yyidx == old(yyidx) - 1
    {
      if yyidx > 0 {
        log := log + [Event.Pop(yystack[yyidx].minor)];
      }
      yyidx := yyidx - 1;
      assert yyidx >= 0 ==> yystack[..yyidx + 1] == old(yystack[..yyidx + 1])[..yyidx + 1];
    }

    /** The popping loop of error recovery. */
    method PopForError()
      requires Valid() && -1 <= yyidx && t.mode.ErrorSymbol?
      requires forall k :: 0 <= k <= yyidx ==> yystack[k].state < t.nstate
      modifies this`yyidx, this`log
      ensures Valid() && -1 <= yyidx
      ensures (forall k :: 0 <= k < |old(Abs()).stack| ==> old(Abs()).stack[k].state < t.nstate)
              && Abs() == PopToError(t, old(Abs()))
    {
      while yyidx >= 0 && FindReduceAction(t, yystack[yyidx].state, t.mode.symbol) >= t.nstate
        invariant Valid() && -1 <= yyidx <= old(yyidx)
        invariant forall k :: 0 <= k < |old(Abs()).stack| ==> old(Abs()).stack[k].state < t.nstate
        invariant PopToError(t, Abs()) == PopToError(t, old(Abs()))
        decreases yyidx
      {
        PopStack();
      }
    }

    /** Recovery by the error symbol. */
    method RecoverFromError(tok: Token, alloc: bool) returns (done: bool)
      requires Valid() && 0 <= yyidx && t.mode.ErrorSymbol?
      requires forall k :: 0 <= k <= yyidx ==> yystack[k].state < t.nstate
      modifies this, yystack
      ensures Valid() && (yystack == old(yystack) || fresh(yystack))
      ensures (forall k :: 0 <= k < |old(Abs()).stack| ==> old(Abs()).stack[k].state < t.nstate)
              && Result(Abs(), true, done) == Recover(t, old(Abs()), tok, alloc)
    {
      PopForError();
      if yyidx < 0 || tok.major == 0 {
        ghost var popped := log;
        log := log + [Discard(tok)];
        Clear(Fail);
        assert popped + [Discard(tok)] + [Fail] == popped + [Discard(tok), Fail];
        return true;
      }
      Shift(FindReduceAction(t, yystack[yyidx].state, t.mode.symbol), t.mode.symbol, ErrorMark, alloc);
      return yyidx < 0;
    }

    /** The error branch of a grammar without an error symbol. */
    method OnPlainError(tok: Token)
      requires Valid() && 0 <= yyidx && t.mode.Plain?
      modifies this`yyidx, this`yyerrcnt, this`log
      ensures Valid()
      ensures var st := old(Abs());
              var told := (if st.errcnt <= 0 then Emit(st, [Report(tok)]) else st).(errcnt := 3);
              var gone := Emit(told, [Discard(tok)]);
              Abs() == if tok.major == 0 then Emit(gone, [Fail]).(stack := []) else gone
    {
      hide WellFormed;
      if yyerrcnt <= 0 {
        log := log + [Report(tok)];
      }
      yyerrcnt := 3;
      log := log + [Discard(tok)];
      if tok.major == 0 {
        Clear(Fail);
      }
    }

    /** The error branch of a grammar with an error symbol. */
    method OnErrorSymbol(tok: Token, hit: bool, alloc: bool) returns (done: bool)
      requires Valid() && 0 <= yyidx && t.mode.ErrorSymbol?
      requires forall k :: 0 <= k <= yyidx ==> yystack[k].state < t.nstate
      modifies this, yystack
      ensures Valid() && (yystack == old(yystack) || fresh(yystack))
      ensures (forall k :: 0 <= k < |old(Abs()).stack| ==> old(Abs()).stack[k].state < t.nstate)
              && Result(Abs(), true, done) == HandleError(t, old(Abs()), tok, hit, alloc)
    {
      hide WellFormed, Recover;
      if yyerrcnt < 0 {
        log := log + [Report(tok)];
      }
      yyerrcnt := 3;
      if yystack[yyidx].major == t.mode.symbol || hit {
        log := log + [Discard(tok)];
        return true;
      }
      done := RecoverFromError(tok, alloc);
    }

    /** The syntax-error branch of the loop in Parse. */
    method OnError(tok: Token, hit: bool, alloc: bool) returns (hit': bool, done: bool)
      requires Valid() && 0 <= yyidx
      requires forall k :: 0 <= k <= yyidx ==> yystack[k].state < t.nstate
      modifies this, yystack
      ensures Valid() && (yystack == old(yystack) || fresh(yystack))
      ensures (forall k :: 0 <= k < |old(Abs()).stack| ==> old(Abs()).stack[k].state < t.nstate)
              && Result(Abs(), hit', done) == HandleError(t, old(Abs()), tok, hit, alloc)
    {
      hide WellFormed, Recover;
      match t.mode
      case NoRecovery =>
        log := log + [Report(tok), Discard(tok)];
        return hit, true;
      case Plain =>
        OnPlainError(tok);
        return hit, true;
      case ErrorSymbol(_) =>
        done := OnErrorSymbol(tok, hit, alloc);
        return true, done;
    }

    /** One iteration of the do-while loop. */
    method Once(tok: Token, hit: bool, alloc: bool) returns (hit': bool, done: bool)
      requires Valid() && Bounded(t, Abs()) && CanIterate(t, Abs(), tok)
      modifies this, yystack
      ensures Valid() && (yystack == old(yystack) || fresh(yystack))
      ensures Result(Abs(), hit', done) == Iterate(t, old(Abs()), tok, hit, alloc)
    {
      hide WellFormed, Push, Reduce, HandleError, FindShiftAction, Bounded, CanReduce;
      var act := FindShiftAction(t, yystack[yyidx].state, tok.major);
      if act < t.nstate {
        Shift(act, tok.major, Leaf(tok), alloc);
        if yyidx >= 0 {
          log := log + [Event.Shift(tok)];
        }
        yyerrcnt := yyerrcnt - 1;
        return hit, true;
      } else if act < ErrorAction(t) {
        ReduceBy(act - t.nstate, alloc);
        return hit, yyidx < 0;
      } else {
        hit', done := OnError(tok, hit, alloc);
      }
    }

    /** The (re)initialisation at the head of Parse. */
    method Begin() returns (done: bool)
      requires Valid()
      modifies this, yystack
      ensures Valid() && yystack == old(yystack)
      ensures Result(Abs(), false, done) == Enter(t, old(Abs()))
    {
      if yyidx >= 0 {
        return false;
      }
      if yystack.Length == 0 {
        yyidx := yyidx - 1;
        Clear(Overflow);
        return true;
      }
      yyidx, yyerrcnt := 0, -1;
      yystack[0] := Entry(0, 0, ErrorMark);
      log := log + [Restart];
      assert yystack[..1] == [Entry(0, 0, ErrorMark)];
      return false;
    }

    /** Parse, for as many loop iterations as `allocs` has entries; each entry says whether
        realloc would succeed in that iteration.  `past` is the run that led here; the call
        extends it by feeding the token and iterating. */
    method Parse(tok: Token, allocs: seq<bool>, ghost g: Grammar, ghost c: Certificate,
                 ghost first: bool, ghost past: seq<Action>)
      returns (done: bool, hit: bool)
      requires Valid() && Consistent(g, t, c) && tok.major < t.nterm
      requires Run(t, Init(t, first), past).Some? && Run(t, Init(t, first), past).value.st == Abs()
               && Run(t, Init(t, first), past).value.work.None?
      modifies this, yystack
      ensures Valid() && (yystack == old(yystack) || fresh(yystack))
      ensures Run(t, Init(t, first), past + [Feed(tok)] + Goes(allocs))
              == Some(Machine(Abs(), if done then None else Some(tok), hit))
    {
      RunSnoc(t, Init(t, first), past, Feed(tok));
      done := Begin();
      done, hit := Loop(tok, done, allocs, g, c, first, past + [Feed(tok)]);
    }

    /** The do-while loop of Parse. */
    method Loop(tok: Token, already: bool, allocs: seq<bool>, ghost g: Grammar, ghost c: Certificate,
                ghost first: bool, ghost past: seq<Action>)
      returns (done: bool, hit: bool)
      requires Valid() && Consistent(g, t, c)
      requires Run(t, Init(t, first), past) == Some(Machine(Abs(), if already then None else Some(tok), false))
      modifies this, yystack
      ensures Valid() && (yystack == old(yystack) || fresh(yystack))
      ensures Run(t, Init(t, first), past + Goes(allocs))
              == Some(Machine(Abs(), if done then None else Some(tok), hit))
    {
      done, hit := already, false;
      ghost var acts := past;
      var i := 0;
      while i < |allocs|
        invariant 0 <= i <= |allocs| && Valid() && (yystack == old(yystack) || fresh(yystack))
        invariant acts == past + Goes(allocs[..i])
        invariant Run(t, Init(t, first), acts) == Some(Machine(Abs(), if done then None else Some(tok), hit))
      {
        RunReady(g, t, c, first, acts);
        GoesSnoc(allocs, i);
        hit, done := OnceInRun(tok, hit, done, allocs[i], Init(t, first), acts);
        acts := acts + [Go(allocs[i])];
        i := i + 1;
      }
      assert allocs[..i] == allocs;
    }

    /** One iteration, seen as one more step of the run so far. */
    method OnceInRun(tok: Token, hit: bool, done: bool, alloc: bool, ghost m0: Machine, ghost acts: seq<Action>)
      returns (hit': bool, done': bool)
      requires Valid() && Ready(t, Run(t, m0, acts))
      requires Run(t, m0, acts) == Some(Machine(Abs(), if done then None else Some(tok), hit))
      modifies this, yystack
      ensures Valid() && (yystack == old(yystack) || fresh(yystack))
      ensures Run(t, m0, acts + [Go(alloc)]) == Some(Machine(Abs(), if done' then None else Some(tok), hit'))
    {
      RunSnoc(t, m0, acts, Go(alloc));
      hit', done' := hit, done;
      if !done {
        hit', done' := Once(tok, hit, alloc);
      }
    }
  }

  ghost predicate Ready(t: Tables, r: Option<Machine>)
    requires WellFormed(t)
  {
    && r.Some?
    && Bounded(t, r.value.st)
    && (r.value.work.Some? ==> CanIterate(t, r.value.st, r.value.work.value))
  }

  /** Every reachable machine can take its next step. */
  lemma RunReady(g: Grammar, t: Tables, c: Certificate, first: bool, actions: seq<Action>)
    requires Consistent(g, t, c)
    ensures Ready(t, Run(t, Init(t, first), actions))
  {
    RunSafe(g, t, c, first, actions);
    var m := Run(t, Init(t, first), actions).value;
    if m.work.Some? {
      IterateAllowed(g, t, c, m.st, m.work.value);
    }
  }

  function Goes(allocs: seq<bool>): (r: seq<Action>)
    ensures |r| == |allocs|
  {
    seq(|allocs|, i requires 0 <= i < |allocs| => Go(allocs[i]))
  }

  lemma GoesSnoc(allocs: seq<bool>, i: nat)
    requires i < |allocs|
    ensures Goes(allocs[..i + 1]) == Goes(allocs[..i]) + [Go(allocs[i])]
  {
  }
}
