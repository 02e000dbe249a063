/** The transaction index built by scanning begin, end and rollback records. */
module TransactionIndex {
  import opened Options
  import opened LogRecords

  const STATE_BEGIN: nat := 10
  const STATE_END: nat := 20
  const STATE_ROLLBACK: nat := 30

  datatype Info = Info(state: nat, revisions: seq<ColumnRevision>)

  type Transactions = map<int, Info>

  /** `map::insert`: an existing entry stays. */
  function Insert(m: Transactions, t: int, info: Info): Transactions {
    if t in m then m else m[t := info]
  }

  /** indexTransactionEndRecord and indexRollbackRecord: raise the state, or enter it. */
  function Raise(m: Transactions, t: int, state: nat): Transactions {
    if t in m && m[t].state < state then m[t := m[t].(state := state)]
    else Insert(m, t, Info(state, []))
  }

  /** The three index functions; other records do not concern transactions. */
  function IndexRecord(m: Transactions, r: Record): Transactions {
    match r
    case Begin(t, _, revs) =>
      if t in m && m[t].revisions == [] then m[t := m[t].(revisions := revs)]
      else Insert(m, t, Info(STATE_BEGIN, revs))
    case End(t, _) => Raise(m, t, STATE_END)
    case Rollback(t, _) => Raise(m, t, STATE_ROLLBACK)
    case _ => m
  }

  function IndexLog(rs: seq<Record>): Transactions {
    if rs == [] then map[] else IndexRecord(IndexLog(rs[..|rs| - 1]), rs[|rs| - 1])
  }

  /** indexLogFile's loop over the records of the log. */
  method IndexTransactions(rs: seq<Record>) returns (transactions: Transactions)
    ensures transactions == IndexLog(rs)
  {
    hide IndexRecord;
    transactions := map[];
    for i := 0 to |rs|
      invariant transactions == IndexLog(rs[..i])
    {
      assert rs[..i + 1][..i] == rs[..i];
      transactions := IndexRecord(transactions, rs[i]);
    }
    assert rs[..|rs|] == rs;
  }

  /** The record says that transaction `t` reached `state`. */
  predicate Reports(r: Record, t: int, state: nat) {
    match r
    case Begin(u, _, _) => u == t && state == STATE_BEGIN
    case End(u, _) => u == t && state == STATE_END
    case Rollback(u, _) => u == t && state == STATE_ROLLBACK
    case _ => false
  }

  /** The revisions of the transaction's first begin record that has any. */
  function FirstRevisions(rs: seq<Record>, t: int): seq<ColumnRevision> {
    if rs == [] then []
    else
      var before := FirstRevisions(rs[..|rs| - 1], t);
      var x := rs[|rs| - 1];
      if before == [] && x.Begin? && x.transaction == t then x.revisions else before
  }

  function Entry(m: Transactions, t: int): Option<Info> {
    if t in m then Some(m[t]) else None
  }

  /** What the index says of a transaction: whether any record reports it, its highest
      reported state, and the revisions of its first begin record that has any. */
  ghost predicate Describes(rs: seq<Record>, m: Transactions, t: int) {
    && (forall r, s: nat :: r in rs && Reports(r, t, s) ==> t in m && s <= m[t].state)
    && (t in m ==> exists r :: r in rs && Reports(r, t, m[t].state))
    && FirstRevisions(rs, t) == if t in m then m[t].revisions else []
  }

  lemma {:induction false} IndexDescribes(rs: seq<Record>, t: int)
    ensures Describes(rs, IndexLog(rs), t)
    decreases |rs|
  {
    if rs != [] {
      var before := rs[..|rs| - 1];
      IndexDescribes(before, t);
      hide IndexLog;
      DescribesSnoc(before, IndexLog(before), rs[|rs| - 1], t);
      assert before + [rs[|rs| - 1]] == rs;
      IndexLogSnoc(rs);
    }
  }

  lemma IndexLogSnoc(rs: seq<Record>)
    requires rs != []
    ensures IndexLog(rs) == IndexRecord(IndexLog(rs[..|rs| - 1]), rs[|rs| - 1])
  {
  }

  lemma DescribesSnoc(rs: seq<Record>, m: Transactions, x: Record, t: int)
    requires Describes(rs, m, t)
    ensures Describes(rs + [x], IndexRecord(m, x), t)
  {
    var m' := IndexRecord(m, x);
    assert (rs + [x])[..|rs|] == rs;
    assert forall r :: r in rs + [x] <==> r in rs || r == x;
    if t in m' {
      if t in m && m'[t].state == m[t].state {
        var r :| r in rs && Reports(r, t, m[t].state);
        assert r in rs + [x] && Reports(r, t, m'[t].state);
      } else {
        assert x in rs + [x] && Reports(x, t, m'[t].state);
      }
    }
  }

  /** Logs with the same records, in whatever order and however often repeated, index the
      same transactions in the same states: the highest of Begin < End < Rollback. */
  lemma StateConfluent(a: seq<Record>, b: seq<Record>, t: int)
    requires forall r :: r in a <==> r in b
    ensures var m, n := IndexLog(a), IndexLog(b);
            (t in m <==> t in n) && (t in m && t in n ==> m[t].state == n[t].state)
  {
    IndexDescribes(a, t);
    IndexDescribes(b, t);
    hide IndexLog;
    var m, n := IndexLog(a), IndexLog(b);
    if t in m {
      var r :| r in a && Reports(r, t, m[t].state);
      assert r in b;
    }
    if t in n {
      var r :| r in b && Reports(r, t, n[t].state);
      assert r in a;
    }
  }

  predicate Tells(r: Record, t: int) {
    r.Begin? && r.transaction == t && r.revisions != []
  }

  /** The transaction's begin records that have revisions have the same. */
  ghost predicate BeginsAgree(rs: seq<Record>, t: int) {
    forall r, s :: r in rs && s in rs && Tells(r, t) && Tells(s, t) ==> r.revisions == s.revisions
  }

  lemma {:induction false} FirstRevisionsMember(rs: seq<Record>, t: int)
    ensures if FirstRevisions(rs, t) == [] then forall r :: r in rs ==> !Tells(r, t)
            else exists r :: r in rs && Tells(r, t) && r.revisions == FirstRevisions(rs, t)
    decreases |rs|
  {
    if rs != [] {
      var before := rs[..|rs| - 1];
      var x := rs[|rs| - 1];
      FirstRevisionsMember(before, t);
      assert forall r :: r in rs <==> r in before || r == x;
    }
  }

  lemma {:induction false} FirstRevisionsCons(x: Record, rs: seq<Record>, t: int)
    requires Tells(x, t)
    ensures FirstRevisions([x] + rs, t) == x.revisions
    decreases |rs|
  {
    if rs == [] {
      assert [x] + rs == [x] && [x][..0] == [];
    } else {
      assert ([x] + rs)[..|rs|] == [x] + rs[..|rs| - 1];
      FirstRevisionsCons(x, rs[..|rs| - 1], t);
    }
  }

  /** If the begin records agree, the whole entry depends on the set of records only. */
  lemma EntryConfluent(a: seq<Record>, b: seq<Record>, t: int)
    requires BeginsAgree(a, t) && forall r :: r in a <==> r in b
    ensures Entry(IndexLog(a), t) == Entry(IndexLog(b), t)
  {
    StateConfluent(a, b, t);
    IndexDescribes(a, t);
    IndexDescribes(b, t);
    FirstRevisionsMember(a, t);
    FirstRevisionsMember(b, t);
    hide IndexLog, FirstRevisions;
  }

  /** The order of indexing never shows in a transaction's entry exactly if its begin
      records that have revisions agree. */
  lemma ConfluentIff(a: seq<Record>, t: int)
    ensures (forall b :: multiset(b) == multiset(a) ==> Entry(IndexLog(b), t) == Entry(IndexLog(a), t)) <==> BeginsAgree(a, t)
  {
    if BeginsAgree(a, t) {
      forall b | multiset(b) == multiset(a) ensures Entry(IndexLog(b), t) == Entry(IndexLog(a), t) {
        assert forall r :: r in a <==> r in multiset(a);
        assert forall r :: r in b <==> r in multiset(b);
        EntryConfluent(a, b, t);
      }
    } else {
      var b := VisibleOrder(a, t);
    }
  }

  lemma MovedFirst(a: seq<Record>, x: Record) returns (b: seq<Record>)
    requires x in a
    ensures multiset(b) == multiset(a) && b != [] && b == [x] + b[1..]
  {
    var i :| 0 <= i < |a| && a[i] == x;
    b := [x] + (a[..i] + a[i + 1..]);
    assert a == a[..i] + [x] + a[i + 1..];
  }

  lemma Told(rs: seq<Record>, x: Record, t: int)
    requires x in rs && Tells(x, t)
    ensures t in IndexLog(rs) && IndexLog(rs)[t].revisions == FirstRevisions(rs, t)
  {
    hide IndexLog, FirstRevisions;
    IndexDescribes(rs, t);
    assert Reports(x, t, STATE_BEGIN);
  }

  /** Where they disagree, some order of the same records gives another entry. */
  lemma VisibleOrder(a: seq<Record>, t: int) returns (b: seq<Record>)
    requires !BeginsAgree(a, t)
    ensures multiset(b) == multiset(a) && Entry(IndexLog(b), t) != Entry(IndexLog(a), t)
  {
    hide IndexLog, FirstRevisions;
    var r, s :| r in a && s in a && Tells(r, t) && Tells(s, t) && r.revisions != s.revisions;
    var x := if r.revisions == FirstRevisions(a, t) then s else r;
    b := MovedFirst(a, x);
    FirstRevisionsCons(x, b[1..], t);
    Told(a, x, t);
    Told(b, x, t);
  }

  /** Two logs with the same records give the same index, if for every transaction the begin
      records that have revisions agree. */
  lemma IndexConfluent(a: seq<Record>, b: seq<Record>)
    requires (forall t :: BeginsAgree(a, t)) && forall r :: r in a <==> r in b
    ensures IndexLog(a) == IndexLog(b)
  {
    hide IndexLog, BeginsAgree;
    var m, n := IndexLog(a), IndexLog(b);
    forall t
      ensures (t in m <==> t in n) && (t in m && t in n ==> m[t] == n[t])
    {
      EntryConfluent(a, b, t);
    }
    assert m.Keys == n.Keys;
  }

  /** Begin records that disagree: the order shows. */
  lemma DisagreementShows()
    ensures var x := Begin(1, 0, [ColumnRevision(5, 1)]);
            var y := Begin(1, 0, [ColumnRevision(5, 2)]);
            IndexLog([x, y]) != IndexLog([y, x])
  {
    var x := Begin(1, 0, [ColumnRevision(5, 1)]);
    var y := Begin(1, 0, [ColumnRevision(5, 2)]);
    assert [x, y] == [x] + [y] && [y, x] == [y] + [x];
    FirstRevisionsCons(x, [y], 1);
    FirstRevisionsCons(y, [x], 1);
    IndexDescribes([x, y], 1);
    IndexDescribes([y, x], 1);
    hide IndexLog, FirstRevisions;
    assert x.revisions[0] != y.revisions[0];
    assert x in [x, y] && x in [y, x] && Reports(x, 1, STATE_BEGIN);
  }
}
