/** Conditions on the tables under which Parse returns.  From some iteration on, a call that
    does not return only reduces; reductions that go on for ever do so above two states at
    the most; and a rank on the states can rule that out. */
module LemparProgress {
  import opened Options
  import opened LemparTables
  import opened LemparMachine
  import opened LemparTermination

  // --- Reductions on a stack of states ---

  /** One reduction on token `a`; None if the action is none, or the bottom would be popped, or
      there is nowhere to go. */
  function Reduction(t: Tables, a: Symbol, s: seq<nat>): Option<seq<nat>>
    requires WellFormed(t) && a < t.nterm
  {
    if s == [] || s[|s| - 1] >= t.nstate then None
    else
      var act := FindShiftAction(t, s[|s| - 1], a);
      if !(t.nstate <= act < ErrorAction(t)) then None
      else
        var r := t.ruleInfo[act - t.nstate];
        var k := |s| - r.nrhs;
        if k <= 0 || s[k - 1] >= t.nstate then None
        else
          var q := FindReduceAction(t, s[k - 1], r.lhs);
          if q < t.nstate then Some(s[..k] + [q]) else None
  }

  function Reductions(t: Tables, a: Symbol, s: seq<nat>, n: nat): Option<seq<nat>>
    requires WellFormed(t) && a < t.nterm
  {
    if n == 0 then Some(s)
    else
      var before := Reductions(t, a, s, n - 1);
      if before.None? then None else Reduction(t, a, before.value)
  }

  /** Reductions go on for ever, with at most `room` states on the stack. */
  ghost predicate Diverges(t: Tables, a: Symbol, s: seq<nat>, room: Option<nat>)
    requires WellFormed(t) && a < t.nterm
  {
    forall n: nat :: Reductions(t, a, s, n).Some? && HasRoom(Reductions(t, a, s, n).value, room)
  }

  ghost predicate HasRoom(s: seq<nat>, room: Option<nat>) {
    room.Some? ==> |s| <= room.value
  }

  /** The top two states, or the only one. */
  function Tops(s: seq<nat>): (r: seq<nat>)
    ensures |r| <= 2 && |r| <= |s| && s == s[..|s| - |r|] + r
    ensures |s| > 0 ==> |r| > 0
  {
    if |s| <= 2 then s else s[|s| - 2..]
  }

  /** States below do not matter. */
  lemma ReductionAbove(t: Tables, a: Symbol, below: seq<nat>, s: seq<nat>)
    requires WellFormed(t) && a < t.nterm && Reduction(t, a, s).Some?
    ensures Reduction(t, a, below + s) == Some(below + Reduction(t, a, s).value)
  {
    hide WellFormed, FindShiftAction, FindReduceAction;
    var act := FindShiftAction(t, s[|s| - 1], a);
    var k := |s| - t.ruleInfo[act - t.nstate].nrhs;
    var u, q := below + s, FindReduceAction(t, s[k - 1], t.ruleInfo[act - t.nstate].lhs);
    assert u[|u| - 1] == s[|s| - 1] && u[|below| + k - 1] == s[k - 1];
    assert u[..|below| + k] == below + s[..k];
    assert u[..|below| + k] + [q] == below + (s[..k] + [q]);
  }

  /** A reduction that leaves at least two states above `below` does not touch `below`. */
  lemma ReductionStaysAbove(t: Tables, a: Symbol, below: seq<nat>, s: seq<nat>)
    requires WellFormed(t) && a < t.nterm && s != []
    requires Reduction(t, a, below + s).Some?
    requires below == [] || |Reduction(t, a, below + s).value| >= |below| + 2
    ensures Reduction(t, a, s).Some? && Reduction(t, a, below + s).value == below + Reduction(t, a, s).value
  {
    hide WellFormed, FindShiftAction, FindReduceAction;
    var u := below + s;
    assert u[|u| - 1] == s[|s| - 1];
    var act := FindShiftAction(t, s[|s| - 1], a);
    var k := |s| - t.ruleInfo[act - t.nstate].nrhs;
    assert |Reduction(t, a, u).value| == |below| + k + 1;
    assert u[|below| + k - 1] == s[k - 1];
    assert u[..|below| + k] == below + s[..k];
  }

  lemma {:induction false} ReductionsAdd(t: Tables, a: Symbol, s: seq<nat>, m: nat, n: nat)
    requires WellFormed(t) && a < t.nterm && Reductions(t, a, s, m).Some?
    ensures Reductions(t, a, s, m + n) == Reductions(t, a, Reductions(t, a, s, m).value, n)
    decreases n
  {
    hide WellFormed, Reduction;
    if n > 0 {
      ReductionsAdd(t, a, s, m, n - 1);
    }
  }

  // --- Two states suffice ---

  /** A point of an endless run that no later point goes below. */
  lemma {:induction false} Lowest(t: Tables, a: Symbol, s: seq<nat>, room: Option<nat>, j: nat) returns (m: nat)
    requires WellFormed(t) && a < t.nterm && Diverges(t, a, s, room)
    ensures Reductions(t, a, s, m).Some?
    ensures forall i: nat :: Reductions(t, a, s, i).Some?
                             && |Reductions(t, a, s, m).value| <= |Reductions(t, a, s, i).value|
    decreases |Reductions(t, a, s, j).value|
  {
    hide WellFormed, Reductions;
    if i: nat :| |Reductions(t, a, s, i).value| < |Reductions(t, a, s, j).value| {
      m := Lowest(t, a, s, room, i);
    } else {
      m := j;
    }
  }

  /** From the lowest point on, the run is that of the top two states. */
  lemma {:induction false} TopsFollow(t: Tables, a: Symbol, s: seq<nat>, n: nat)
    requires WellFormed(t) && a < t.nterm && s != []
    requires forall i: nat :: Reductions(t, a, s, i).Some? && |s| <= |Reductions(t, a, s, i).value|
    ensures var below, u := s[..|s| - |Tops(s)|], Reductions(t, a, Tops(s), n);
            u.Some? && u.value != [] && Reductions(t, a, s, n) == Some(below + u.value)
  {
    hide WellFormed, Reduction;
    var below := s[..|s| - |Tops(s)|];
    if n > 0 {
      TopsFollow(t, a, s, n - 1);
      var u := Reductions(t, a, Tops(s), n - 1).value;
      assert Reductions(t, a, s, n).Some? && |s| <= |Reductions(t, a, s, n).value|;
      ReductionStaysAbove(t, a, below, u);
    }
  }

  function RoomAbove(room: Option<nat>, n: nat): Option<nat> {
    if room.None? then None else Some(if n <= room.value then room.value - n else 0)
  }

  /** Endless reductions reach a stack whose top two states go on for ever on their own. */
  lemma DivergesAtTop(t: Tables, a: Symbol, s: seq<nat>, room: Option<nat>) returns (m: nat)
    requires WellFormed(t) && a < t.nterm && s != [] && Diverges(t, a, s, room)
    ensures Reductions(t, a, s, m).Some?
    ensures var u := Reductions(t, a, s, m).value;
            u != [] && Diverges(t, a, Tops(u), RoomAbove(room, |u| - |Tops(u)|))
  {
    hide WellFormed, Reduction, Tops;
    m := Lowest(t, a, s, room, 0);
    var u := Reductions(t, a, s, m).value;
    ReductionsNonEmpty(t, a, s, m);
    forall i: nat ensures Reductions(t, a, u, i) == Reductions(t, a, s, m + i) {
      ReductionsAdd(t, a, s, m, i);
    }
    forall i: nat ensures Reductions(t, a, u, i).Some? && |u| <= |Reductions(t, a, u, i).value| {
      assert Reductions(t, a, s, m + i).Some?;
    }
    var n := |u| - |Tops(u)|;
    forall i: nat
      ensures Reductions(t, a, Tops(u), i).Some? && HasRoom(Reductions(t, a, Tops(u), i).value, RoomAbove(room, n))
    {
      TopsFollow(t, a, u, i);
      assert HasRoom(Reductions(t, a, s, m + i).value, room);
    }
  }

  lemma {:induction false} ReductionsNonEmpty(t: Tables, a: Symbol, s: seq<nat>, n: nat)
    requires WellFormed(t) && a < t.nterm && s != [] && Reductions(t, a, s, n).Some?
    ensures Reductions(t, a, s, n).value != []
  {
    hide WellFormed, FindShiftAction, FindReduceAction;
    if n > 0 {
      ReductionsNonEmpty(t, a, s, n - 1);
    }
  }

  /** Reductions on a token end from every stack exactly if they end from every stack of at
      most two states: finitely many. */
  lemma TwoStatesSuffice(t: Tables, a: Symbol)
    requires WellFormed(t) && a < t.nterm
    ensures (forall s :: s != [] ==> !Diverges(t, a, s, None)) <==> (forall s :: 0 < |s| <= 2 ==> !Diverges(t, a, s, None))
  {
    hide WellFormed, Diverges, Reductions;
    if forall s :: 0 < |s| <= 2 ==> !Diverges(t, a, s, None) {
      forall s | s != [] ensures !Diverges(t, a, s, None) {
        if Diverges(t, a, s, None) {
          var m := DivergesAtTop(t, a, s, None);
          assert !Diverges(t, a, Tops(Reductions(t, a, s, m).value), None);
        }
      }
    }
  }

  // --- The loop of a call ---

  /** An iteration that reduces and goes on is one reduction of its states. */
  lemma GoesOnReducing(t: Tables, st: State, tok: Token, hit: bool, alloc: bool)
    requires WellFormed(t) && CanIterate(t, st, tok) && !Iterate(t, st, tok, hit, alloc).done
    requires t.nstate <= FindShiftAction(t, Top(st).state, tok.major) < ErrorAction(t)
    ensures Reduction(t, tok.major, States(st.stack)) == Some(States(Iterate(t, st, tok, hit, alloc).st.stack))
  {
    hide WellFormed, FindShiftAction, FindReduceAction, HandleError;
    var s, act := States(st.stack), FindShiftAction(t, Top(st).state, tok.major);
    var r := t.ruleInfo[act - t.nstate];
    var k := |s| - r.nrhs;
    var q := FindReduceAction(t, s[k - 1], r.lhs);
    var next := Iterate(t, st, tok, hit, alloc).st.stack;
    assert |next| == k + 1 && next[..k] == st.stack[..k] && next[k].state == q;
    assert States(next) == s[..k] + [q];
  }

  /** Where a reduction of the states is possible and there is room, the iteration goes on
      with it. */
  lemma ReducesWithRoom(t: Tables, st: State, tok: Token, hit: bool, alloc: bool)
    requires WellFormed(t) && CanIterate(t, st, tok) && Bounded(t, st) && Answered(t, alloc)
    requires Reduction(t, tok.major, States(st.stack)).Some?
    requires t.stackDepth > 0 ==> |Reduction(t, tok.major, States(st.stack)).value| <= t.stackDepth
    ensures !Iterate(t, st, tok, hit, alloc).done
    ensures Reduction(t, tok.major, States(st.stack)) == Some(States(Iterate(t, st, tok, hit, alloc).st.stack))
  {
    hide WellFormed, FindShiftAction, FindReduceAction, HandleError;
    var s, act := States(st.stack), FindShiftAction(t, Top(st).state, tok.major);
    assert s[|s| - 1] == Top(st).state;
    var r := t.ruleInfo[act - t.nstate];
    var k := |s| - r.nrhs;
    assert |Reduction(t, tok.major, s).value| == k + 1;
    assert !Iterate(t, st, tok, hit, alloc).done;
    GoesOnReducing(t, st, tok, hit, alloc);
  }

  /** From iteration `k` on yyerrorhit does not change any more. */
  ghost predicate Settled(l: Call, k: nat)
    requires WellFormed(l.t)
  {
    forall j: nat :: k <= j ==> Working(l, j) && At(l, j).hit == At(l, k).hit
  }

  lemma Settles(g: Grammar, c: Certificate, l: Call) returns (k: nat)
    requires Consistent(g, l.t, c) && !Ends(l)
    ensures Settled(l, k)
  {
    hide At, WellFormed;
    if i: nat :| At(l, i).hit {
      k := i;
      forall j: nat | k <= j ensures Working(l, j) && At(l, j).hit {
        assert Working(l, k);
        HitStays(g, c, l, k, j);
      }
    } else {
      k := 0;
      forall j: nat ensures Working(l, j) && !At(l, j).hit {
      }
    }
  }

  /** A settled iteration is a reduction. */
  lemma SettledReduces(g: Grammar, c: Certificate, l: Call, k: nat, i: nat)
    requires Consistent(g, l.t, c) && Settled(l, k)
    ensures var m := At(l, k + i);
            && m.work.Some? && m.work.value.major < l.t.nterm && CanIterate(l.t, m.st, m.work.value)
            && l.t.nstate <= FindShiftAction(l.t, Top(m.st).state, m.work.value.major) < ErrorAction(l.t)
            && Reduction(l.t, m.work.value.major, States(m.st.stack)) == Some(States(At(l, k + i + 1).st.stack))
  {
    hide At, WellFormed, Iterate, FindShiftAction, Reduction, Bounded;
    var m := At(l, k + i);
    assert Working(l, k + i) && Working(l, k + i + 1) && At(l, k + i + 1).hit == m.hit;
    Next(g, c, l, k + i);
    GoesOn(l.t, m.st, m.work.value, m.hit, l.allocs(k + i));
    GoesOnReducing(l.t, m.st, m.work.value, m.hit, l.allocs(k + i));
  }

  /** The token of the call. */
  ghost predicate Called(l: Call, a: Symbol)
    requires WellFormed(l.t)
  {
    a < l.t.nterm && At(l, 0).work.Some? && At(l, 0).work.value.major == a
  }

  lemma {:induction false} SettledRun(g: Grammar, c: Certificate, l: Call, k: nat, a: Symbol, n: nat)
    requires Consistent(g, l.t, c) && Settled(l, k) && Called(l, a)
    ensures Reductions(l.t, a, States(At(l, k).st.stack), n) == Some(States(At(l, k + n).st.stack))
  {
    hide At, WellFormed, Reduction, FindShiftAction, CanIterate;
    if n > 0 {
      SettledRun(g, c, l, k, a, n - 1);
      SettledReduces(g, c, l, k, n - 1);
      assert Working(l, k + n - 1);
      SameToken(g, c, l, k + n - 1);
    }
  }

  /** The room the stack leaves: its fixed depth, or no limit. */
  function Room(t: Tables): Option<nat> {
    if t.stackDepth > 0 then Some(t.stackDepth) else None
  }

  lemma SettledDiverges(g: Grammar, c: Certificate, l: Call, k: nat, a: Symbol)
    requires Consistent(g, l.t, c) && Settled(l, k) && Called(l, a)
    ensures At(l, k).st.stack != [] && Diverges(l.t, a, States(At(l, k).st.stack), Room(l.t))
  {
    hide At, WellFormed, Reductions, FindShiftAction, Reduction;
    SettledReduces(g, c, l, k, 0);
    var s := States(At(l, k).st.stack);
    forall n: nat ensures Reductions(l.t, a, s, n).Some? && HasRoom(Reductions(l.t, a, s, n).value, Room(l.t)) {
      SettledRun(g, c, l, k, a, n);
      Next(g, c, l, k + n);
    }
  }

  /** If no stack of at most two states goes on for ever on the token, the call returns,
      whatever the allocator does. */
  lemma NoDivergenceEnds(g: Grammar, c: Certificate, l: Call, a: Symbol)
    requires Consistent(g, l.t, c) && Called(l, a)
    requires forall s :: 0 < |s| <= 2 ==> !Diverges(l.t, a, s, None)
    ensures Ends(l)
  {
    hide At, WellFormed, Reductions, Reduction, Ends, Settled;
    if !Ends(l) {
      var k := Settles(g, c, l);
      SettledDiverges(g, c, l, k, a);
      var s := States(At(l, k).st.stack);
      assert Diverges(l.t, a, s, None);
      var m := DivergesAtTop(l.t, a, s, None);
      assert !Diverges(l.t, a, Tops(Reductions(l.t, a, s, m).value), None);
    }
  }

  /** At iteration `k` the top two states go on for ever on their own, in the room above the
      states below them. */
  ghost predicate Stuck(l: Call, a: Symbol, k: nat)
    requires WellFormed(l.t) && a < l.t.nterm
  {
    var s := States(At(l, k).st.stack);
    Working(l, k) && Diverges(l.t, a, Tops(s), RoomAbove(Room(l.t), |s| - |Tops(s)|))
  }

  lemma {:induction false} StuckRun(g: Grammar, c: Certificate, l: Call, a: Symbol, k: nat, n: nat)
    requires Consistent(g, l.t, c) && Called(l, a) && Stuck(l, a, k)
    requires forall i: nat :: Answered(l.t, l.allocs(i))
    ensures var s := States(At(l, k).st.stack);
            var u := Reductions(l.t, a, Tops(s), n);
            && Working(l, k + n) && u.Some?
            && States(At(l, k + n).st.stack) == s[..|s| - |Tops(s)|] + u.value
  {
    hide At, WellFormed, Reduction, Iterate, Tops;
    var s := States(At(l, k).st.stack);
    var below := s[..|s| - |Tops(s)|];
    assert Reductions(l.t, a, Tops(s), n).Some?;
    if n > 0 {
      StuckRun(g, c, l, a, k, n - 1);
      var m := At(l, k + n - 1);
      Next(g, c, l, k + n - 1);
      SameToken(g, c, l, k + n - 1);
      ReductionAbove(l.t, a, below, Reductions(l.t, a, Tops(s), n - 1).value);
      assert HasRoom(Reductions(l.t, a, Tops(s), n).value, RoomAbove(Room(l.t), |below|));
      BelowFits(g, c, l, k);
      ReducesWithRoom(l.t, m.st, m.work.value, m.hit, l.allocs(k + n - 1));
    }
  }

  lemma BelowFits(g: Grammar, c: Certificate, l: Call, k: nat)
    requires Consistent(g, l.t, c)
    ensures l.t.stackDepth > 0 ==> |States(At(l, k).st.stack)| <= l.t.stackDepth
  {
    hide At, WellFormed, CanIterate, Iterate;
    Next(g, c, l, k);
  }

  /** As long as the allocator delivers: a call does not return exactly if at some point its
      top two states, on their own, would go on for ever. */
  lemma StuckIff(g: Grammar, c: Certificate, l: Call, a: Symbol)
    requires Consistent(g, l.t, c) && Called(l, a) && forall i: nat :: Answered(l.t, l.allocs(i))
    ensures !Ends(l) <==> exists k :: Stuck(l, a, k)
  {
    hide At, WellFormed, Reductions, Reduction, Stuck, Settled;
    if k :| Stuck(l, a, k) {
      forall j: nat ensures Working(l, j) {
        StuckWorks(g, c, l, a, k, j);
      }
    }
    if !Ends(l) {
      var k := Settles(g, c, l);
      StuckAtLowest(g, c, l, a, k);
    }
  }

  lemma StuckWorks(g: Grammar, c: Certificate, l: Call, a: Symbol, k: nat, j: nat)
    requires Consistent(g, l.t, c) && Called(l, a) && Stuck(l, a, k) && forall i: nat :: Answered(l.t, l.allocs(i))
    ensures Working(l, j)
  {
    hide At, WellFormed, Reductions, Reduction;
    if j >= k {
      StuckRun(g, c, l, a, k, j - k);
    } else if !Working(l, j) {
      StaysIdle(g, c, l, j, k);
    }
  }

  lemma StuckHere(l: Call, a: Symbol, k: nat, j: nat, u: seq<nat>)
    requires WellFormed(l.t) && a < l.t.nterm && Settled(l, k) && k <= j && u == States(At(l, j).st.stack)
    requires Diverges(l.t, a, Tops(u), RoomAbove(Room(l.t), |u| - |Tops(u)|))
    ensures Stuck(l, a, j)
  {
    hide At, WellFormed, Diverges, Tops;
    assert Working(l, j);
  }

  lemma StuckAtLowest(g: Grammar, c: Certificate, l: Call, a: Symbol, k: nat)
    requires Consistent(g, l.t, c) && Called(l, a) && Settled(l, k)
    ensures exists j :: Stuck(l, a, j)
  {
    hide At, WellFormed, Reductions, Reduction, Diverges, Tops, Stuck, Settled, RoomAbove;
    SettledDiverges(g, c, l, k, a);
    var m := DivergesAtTop(l.t, a, States(At(l, k).st.stack), Room(l.t));
    SettledRun(g, c, l, k, a, m);
    StuckHere(l, a, k, k + m, States(At(l, k + m).st.stack));
  }
}
