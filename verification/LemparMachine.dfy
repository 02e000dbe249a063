/** The driver's state and its step functions, as values.  The semantic value of a stack
    entry is the parse tree it stands for, the most general choice of reduce actions. */
module LemparMachine {
  import opened Options
  import opened LemparTables

  /** A token: its major code and an arbitrary value that tells tokens apart. */
  datatype Token = Token(major: Symbol, value: int)

  datatype Tree =
    | Leaf(tok: Token)
    | ErrorMark
    | Node(rule: nat, children: seq<Tree>)

  datatype Entry = Entry(state: nat, major: Symbol, minor: Tree)

  /** What the outside world can see of a parse. */
  datatype Event =
    | Restart
    | Shift(tok: Token)
    | Report(tok: Token)     // yy_syntax_error
    | Discard(tok: Token)
    | Pop(tree: Tree)        // popped during error recovery
    | Accept(tree: Tree)
    | Fail                   // yy_parse_failed
    | Overflow               // yyStackOverflow

  /** `stack` holds entries 0 .. yyidx and is empty when yyidx < 0; `peak` is yyidxMax,
      `size` the number of allocated entries. */
  datatype State = State(stack: seq<Entry>, peak: int, errcnt: int, size: nat, log: seq<Event>)

  function Top(st: State): Entry
    requires st.stack != []
  {
    st.stack[|st.stack| - 1]
  }

  function Max(a: int, b: int): int { if a < b then b else a }

  /** The allocated size once index `idx` is asked for; `alloc` says whether realloc works. */
  function SizeFor(t: Tables, size: nat, idx: nat, alloc: bool): nat {
    if t.stackDepth == 0 && idx >= size && alloc then 2 * size + 100 else size
  }

  /** yy_shift, including the overflow path that empties the stack. */
  function Push(t: Tables, st: State, e: Entry, alloc: bool): State {
    var idx := |st.stack|;
    var size := SizeFor(t, st.size, idx, alloc);
    var st1 := st.(peak := Max(st.peak, idx), size := size);
    if idx >= size then st1.(stack := [], log := st.log + [Overflow])
    else st1.(stack := st.stack + [e])
  }

  function Minors(es: seq<Entry>): (ts: seq<Tree>)
    ensures |ts| == |es|
  {
    seq(|es|, i requires 0 <= i < |es| => es[i].minor)
  }

  /** What a reduce asks of the stack before it runs. */
  ghost predicate CanReduce(t: Tables, st: State, r: nat) {
    && r < NRule(t)
    && t.ruleInfo[r].nrhs < |st.stack|
    && st.stack[|st.stack| - 1 - t.ruleInfo[r].nrhs].state < t.nstate
  }

  /** yy_reduce, always pushing through yy_shift. */
  function Reduce(t: Tables, st: State, r: nat, alloc: bool): State
    requires WellFormed(t) && CanReduce(t, st, r)
  {
    var k := |st.stack| - t.ruleInfo[r].nrhs;
    var node := Node(r, Minors(st.stack[k..]));
    var base := st.(stack := st.stack[..k]);
    var act := FindReduceAction(t, Top(base).state, t.ruleInfo[r].lhs);
    if act < t.nstate then Push(t, base, Entry(act, t.ruleInfo[r].lhs, node), alloc)
    else st.(stack := [], log := st.log + [Accept(node)])
  }

  /** yy_pop_parser_stack during recovery; entry 0 leaves no trace. */
  function PopOne(st: State): State
    requires st.stack != []
  {
    var rest := st.(stack := st.stack[..|st.stack| - 1]);
    if rest.stack == [] then rest else rest.(log := st.log + [Pop(Top(st).minor)])
  }

  /** Pops entries until one can shift the error symbol. */
  function PopToError(t: Tables, st: State): (r: State)
    requires WellFormed(t) && t.mode.ErrorSymbol?
    requires forall k :: 0 <= k < |st.stack| ==> st.stack[k].state < t.nstate
    ensures r.stack <= st.stack
    ensures r.(stack := st.stack, log := st.log) == st
    ensures r.stack != [] ==> FindReduceAction(t, Top(r).state, t.mode.symbol) < t.nstate
    decreases |st.stack|
  {
    if st.stack == [] || FindReduceAction(t, Top(st).state, t.mode.symbol) < t.nstate then st
    else PopToError(t, PopOne(st))
  }

  /** `hit` is yyerrorhit; `done` says that the do-while loop of Parse stops here. */
  datatype Result = Result(st: State, hit: bool, done: bool)

  function Emit(st: State, es: seq<Event>): State { st.(log := st.log + es) }

  /** Recovery by the error symbol: pop to a state that shifts it, or fail. */
  function Recover(t: Tables, told: State, tok: Token, alloc: bool): (r: Result)
    requires WellFormed(t) && t.mode.ErrorSymbol?
    requires forall k :: 0 <= k < |told.stack| ==> told.stack[k].state < t.nstate
  {
    var popped := PopToError(t, told);
    if popped.stack == [] || tok.major == 0 then
      Result(Emit(popped, [Discard(tok), Fail]).(stack := []), true, true)
    else
      var e := Entry(FindReduceAction(t, Top(popped).state, t.mode.symbol), t.mode.symbol, ErrorMark);
      var pushed := Push(t, popped, e, alloc);
      Result(pushed, true, pushed.stack == [])
  }

  /** The syntax-error branch of one iteration. */
  function HandleError(t: Tables, st: State, tok: Token, hit: bool, alloc: bool): (r: Result)
    requires WellFormed(t) && st.stack != []
    requires forall k :: 0 <= k < |st.stack| ==> st.stack[k].state < t.nstate
  {
    match t.mode
    case NoRecovery => Result(Emit(st, [Report(tok), Discard(tok)]), hit, true)
    case Plain =>
      var told := (if st.errcnt <= 0 then Emit(st, [Report(tok)]) else st).(errcnt := 3);
      var gone := Emit(told, [Discard(tok)]);
      if tok.major == 0 then Result(Emit(gone, [Fail]).(stack := []), hit, true)
      else Result(gone, hit, true)
    case ErrorSymbol(err) =>
      var told := (if st.errcnt < 0 then Emit(st, [Report(tok)]) else st).(errcnt := 3);
      if Top(st).major == err || hit then Result(Emit(told, [Discard(tok)]), true, true)
      else Recover(t, told, tok, alloc)
  }

  /** One iteration touches only entries that exist: the stack holds known states, and a
      reduce, if that is the action, leaves entry 0 in place. */
  ghost predicate CanIterate(t: Tables, st: State, tok: Token)
    requires WellFormed(t)
  {
    && st.stack != []
    && tok.major < t.nterm
    && (forall k :: 0 <= k < |st.stack| ==> st.stack[k].state < t.nstate)
    && var act := FindShiftAction(t, Top(st).state, tok.major);
       t.nstate <= act < ErrorAction(t) ==> CanReduce(t, st, act - t.nstate)
  }

  /** One iteration of the do-while loop in Parse. */
  function Iterate(t: Tables, st: State, tok: Token, hit: bool, alloc: bool): (r: Result)
    requires WellFormed(t) && CanIterate(t, st, tok)
  {
    var act := FindShiftAction(t, Top(st).state, tok.major);
    if act < t.nstate then
      var pushed := Push(t, st, Entry(act, tok.major, Leaf(tok)), alloc);
      var told := if pushed.stack == [] then pushed else Emit(pushed, [Shift(tok)]);
      Result(told.(errcnt := told.errcnt - 1), hit, true)
    else if act < ErrorAction(t) then
      var st' := Reduce(t, st, act - t.nstate, alloc);
      Result(st', hit, st'.stack == [])
    else HandleError(t, st, tok, hit, alloc)
  }

  /** The (re)initialisation at the head of Parse.  With a growing stack that could never
      be allocated, the call reports an overflow and returns at once. */
  function Enter(t: Tables, st: State): (r: Result)
    requires 0 < t.nstate
  {
    if st.stack != [] then Result(st, false, false)
    else if st.size == 0 then Result(Emit(st, [Overflow]), false, true)
    else Result(State([Entry(0, 0, ErrorMark)], st.peak, -1, st.size, st.log + [Restart]), false, false)
  }

  // --- Whole runs ---

  /** `work` is the token of the Parse call in progress. */
  datatype Machine = Machine(st: State, work: Option<Token>, hit: bool)

  /** A run is any sequence of Parse calls and loop iterations. */
  datatype Action = Feed(tok: Token) | Go(alloc: bool)

  /** ParseAlloc. */
  function Init(t: Tables, alloc: bool): Machine {
    var size := if t.stackDepth > 0 then t.stackDepth else if alloc then 100 else 0;
    Machine(State([], 0, 0, size, []), None, false)
  }

  /** None stands for an access outside the stack or the tables.  An action that does not
      apply (a second Parse call, a non-terminal as token) changes nothing. */
  ghost function Step(t: Tables, m: Machine, a: Action): Option<Machine>
    requires WellFormed(t)
  {
    match a
    case Feed(tok) =>
      if m.work.Some? || tok.major >= t.nterm then Some(m)
      else
        var r := Enter(t, m.st);
        Some(Machine(r.st, if r.done then None else Some(tok), false))
    case Go(alloc) =>
      if m.work.None? then Some(m)
      else if !CanIterate(t, m.st, m.work.value) then None
      else
        var r := Iterate(t, m.st, m.work.value, m.hit, alloc);
        Some(Machine(r.st, if r.done then None else m.work, r.hit))
  }

  ghost function Run(t: Tables, m: Machine, actions: seq<Action>): Option<Machine>
    requires WellFormed(t)
    decreases |actions|
  {
    if actions == [] then Some(m)
    else
      var before := Run(t, m, actions[..|actions| - 1]);
      if before.None? then None else Step(t, before.value, actions[|actions| - 1])
  }

  lemma RunSnoc(t: Tables, m: Machine, acts: seq<Action>, a: Action)
    requires WellFormed(t)
    ensures Run(t, m, acts + [a]) == if Run(t, m, acts).None? then None else Step(t, Run(t, m, acts).value, a)
  {
    assert (acts + [a])[..|acts|] == acts;
  }

  // --- The inlined push of yy_reduce ---

  /** The push used by yy_reduce when it popped at least one entry: no overflow test, no
      peak update. */
  function FastPush(st: State, n: nat, e: Entry): State
    requires 0 < n < |st.stack|
  {
    st.(stack := st.stack[..|st.stack| - n] + [e])
  }

  /** The bookkeeping that makes the inlined push legitimate; every step keeps it. */
  ghost predicate Bounded(t: Tables, st: State) {
    && |st.stack| <= st.size
    && 0 <= st.peak && |st.stack| - 1 <= st.peak
    && (t.stackDepth > 0 ==> st.size == t.stackDepth)
  }

  /** In a bounded state the inlined push and yy_shift leave the same state, whatever the
      allocator would have done. */
  lemma FastPathRefines(t: Tables, st: State, n: nat, e: Entry, alloc: bool)
    requires Bounded(t, st) && 0 < n < |st.stack|
    ensures Push(t, st.(stack := st.stack[..|st.stack| - n]), e, alloc) == FastPush(st, n, e)
  {
    var base := st.(stack := st.stack[..|st.stack| - n]);
    assert |base.stack| < st.size && Max(st.peak, |base.stack|) == st.peak;
    assert Push(t, base, e, alloc).stack == FastPush(st, n, e).stack;
  }
}
