/** Deciding a transaction from the workers' answers, in the C# client and in the C++ one. */
module Quorum {
  import opened Options
  import opened Collections

  // --- Counting ---

  lemma {:induction false} SubsetSize(a: set<int>, b: set<int>)
    requires a <= b
    ensures |a| <= |b|
    decreases |a|
  {
    NonEmpty(a);
    if a != {} {
      var x :| x in a;
      SubsetSize(a - {x}, b - {x});
    }
  }

  /** Two parts that together outnumber the whole have a member in common. */
  lemma Overlap(a: set<int>, b: set<int>, u: set<int>)
    requires a <= u && b <= u && |a| + |b| > |u|
    ensures exists x :: x in a && x in b
  {
    SubsetSize(a + b, u);
    assert |a + b| == |a| + |b| - |a * b|;
    NonEmpty(a * b);
    assert a * b != {};
    var x :| x in a * b;
  }

  ghost predicate Distinct(s: seq<int>) {
    forall i, j :: 0 <= i < j < |s| ==> s[i] != s[j]
  }

  function Members(s: seq<int>): set<int> {
    set x | x in s
  }

  lemma {:induction false} DistinctSize(s: seq<int>)
    requires Distinct(s)
    ensures |Members(s)| == |s|
    decreases |s|
  {
    if s != [] {
      var n := |s| - 1;
      DistinctSize(s[..n]);
      assert s == s[..n] + [s[n]];
      assert Members(s) == Members(s[..n]) + {s[n]};
    }
  }

  // --- The C# client ---

  /** How a worker's task ends: a transaction ID, an error the remote sent, another error. */
  datatype Outcome = Replied(id: int) | Refused | Broken

  /** The workers that replied with an ID, in order. */
  function Bucket(workers: seq<int>, outcomes: seq<Outcome>, id: int): (r: seq<int>)
    requires |workers| == |outcomes|
  {
    if workers == [] then []
    else
      var n := |workers| - 1;
      Bucket(workers[..n], outcomes[..n], id) + if outcomes[n] == Replied(id) then [workers[n]] else []
  }

  ghost predicate Groups(m: map<int, seq<int>>, workers: seq<int>, outcomes: seq<Outcome>)
    requires |workers| == |outcomes|
  {
    && (forall id :: id in m <==> Bucket(workers, outcomes, id) != [])
    && (forall id :: id in m ==> m[id] == Bucket(workers, outcomes, id))
  }

  lemma BucketStep(workers: seq<int>, outcomes: seq<Outcome>, i: nat, id: int)
    requires |workers| == |outcomes| && i < |workers|
    ensures Bucket(workers[..i + 1], outcomes[..i + 1], id)
            == Bucket(workers[..i], outcomes[..i], id) + if outcomes[i] == Replied(id) then [workers[i]] else []
  {
    assert workers[..i + 1][..i] == workers[..i] && outcomes[..i + 1][..i] == outcomes[..i];
  }

  lemma GroupsStep(m: map<int, seq<int>>, workers: seq<int>, outcomes: seq<Outcome>, i: nat, next: map<int, seq<int>>)
    requires |workers| == |outcomes| && i < |workers| && Groups(m, workers[..i], outcomes[..i])
    requires next == match outcomes[i]
                     case Replied(id) => m[id := (if id in m then m[id] else []) + [workers[i]]]
                     case _ => m
    ensures Groups(next, workers[..i + 1], outcomes[..i + 1])
  {
    hide Bucket;
    forall id
      ensures id in next <==> Bucket(workers[..i + 1], outcomes[..i + 1], id) != []
      ensures id in next ==> next[id] == Bucket(workers[..i + 1], outcomes[..i + 1], id)
    {
      BucketStep(workers, outcomes, i, id);
    }
  }

  /** ProcessWriteResults: workers grouped by the transaction ID they returned. */
  method ProcessWriteResults(workers: seq<int>, outcomes: seq<Outcome>) returns (byTransaction: map<int, seq<int>>)
    requires |workers| == |outcomes|
    ensures Groups(byTransaction, workers, outcomes)
  {
    byTransaction := map[];
    assert Groups(map[], workers[..0], outcomes[..0]);
    hide Groups;
    for i := 0 to |workers|
      invariant Groups(byTransaction, workers[..i], outcomes[..i])
    {
      ghost var before := byTransaction;
      if outcomes[i].Replied? {
        var id := outcomes[i].id;
        var bucket := if id in byTransaction then byTransaction[id] else [];
        byTransaction := byTransaction[id := bucket + [workers[i]]];
      }
      GroupsStep(before, workers, outcomes, i, byTransaction);
    }
    assert workers[..|workers|] == workers && outcomes[..|outcomes|] == outcomes;
  }

  ghost predicate IsMax(m: map<int, seq<int>>, id: int) {
    id in m && forall k :: k in m ==> k <= id
  }

  method MaxKey(m: map<int, seq<int>>) returns (id: int)
    requires m != map[]
    ensures IsMax(m, id)
  {
    var left := m.Keys;
    NonEmpty(left);
    id :| id in left;
    left := left - {id};
    while left != {}
      invariant id in m && left <= m.Keys && forall k :: k in m && k !in left ==> k <= id
      decreases |left|
    {
      NonEmpty(left);
      var k :| k in left;
      if k > id {
        id := k;
      }
      left := left - {k};
    }
  }

  /** The transaction succeeds with this ID: the highest, from more than half the workers. */
  ghost predicate Succeeds(workers: seq<int>, outcomes: seq<Outcome>, id: int)
    requires |workers| == |outcomes|
  {
    && |Bucket(workers, outcomes, id)| > |workers| / 2
    && forall i :: 0 <= i < |outcomes| && outcomes[i].Replied? ==> outcomes[i].id <= id
  }

  lemma {:induction false} BucketMember(workers: seq<int>, outcomes: seq<Outcome>, id: int, w: int)
    requires |workers| == |outcomes|
    ensures w in Bucket(workers, outcomes, id) <==> exists i :: 0 <= i < |workers| && workers[i] == w && outcomes[i] == Replied(id)
    decreases |workers|
  {
    if workers != [] {
      var n := |workers| - 1;
      BucketMember(workers[..n], outcomes[..n], id, w);
      var b := Bucket(workers[..n], outcomes[..n], id);
      var more := if outcomes[n] == Replied(id) then [workers[n]] else [];
      assert Bucket(workers, outcomes, id) == b + more;
      hide Bucket;
      assert w in b + more <==> w in b || w in more;
      if i :| 0 <= i < |workers| && workers[i] == w && outcomes[i] == Replied(id) {
        assert i < n ==> workers[..n][i] == w && outcomes[..n][i] == Replied(id);
      }
    }
  }

  /** The test for success. */
  method Decide(workers: seq<int>, outcomes: seq<Outcome>) returns (id: Option<int>, m: map<int, seq<int>>)
    requires |workers| == |outcomes|
    ensures Groups(m, workers, outcomes)
    ensures id.Some? ==> Succeeds(workers, outcomes, id.value)
    ensures id.None? ==> forall k :: !Succeeds(workers, outcomes, k)
  {
    m := ProcessWriteResults(workers, outcomes);
    id := None;
    forall k ensures k in m <==> exists i :: 0 <= i < |workers| && outcomes[i] == Replied(k) {
      SomeBucket(workers, outcomes, k);
    }
    hide Bucket;
    if m != map[] {
      var max := MaxKey(m);
      assert forall i :: 0 <= i < |outcomes| && outcomes[i].Replied? ==> outcomes[i].id in m;
      if |m[max]| > |workers| / 2 {
        id := Some(max);
      } else {
        forall k ensures !Succeeds(workers, outcomes, k) {
          OnlyMax(workers, outcomes, m, max, k);
        }
      }
    } else {
      forall k ensures !Succeeds(workers, outcomes, k) {
        assert k !in m;
      }
    }
  }

  lemma SomeBucket(workers: seq<int>, outcomes: seq<Outcome>, id: int)
    requires |workers| == |outcomes|
    ensures Bucket(workers, outcomes, id) != [] <==> exists i :: 0 <= i < |workers| && outcomes[i] == Replied(id)
  {
    var b := Bucket(workers, outcomes, id);
    if b != [] {
      BucketMember(workers, outcomes, id, b[0]);
      assert b[0] in b;
    }
    if i :| 0 <= i < |workers| && outcomes[i] == Replied(id) {
      BucketMember(workers, outcomes, id, workers[i]);
    }
  }

  lemma OnlyMax(workers: seq<int>, outcomes: seq<Outcome>, m: map<int, seq<int>>, max: int, k: int)
    requires |workers| == |outcomes| && Groups(m, workers, outcomes) && IsMax(m, max)
    requires |m[max]| <= |workers| / 2
    requires exists i :: 0 <= i < |workers| && outcomes[i] == Replied(max)
    ensures !Succeeds(workers, outcomes, k)
  {
    hide Bucket;
  }

  lemma {:induction false} BucketDistinct(workers: seq<int>, outcomes: seq<Outcome>, id: int)
    requires |workers| == |outcomes| && Distinct(workers)
    ensures Distinct(Bucket(workers, outcomes, id))
    decreases |workers|
  {
    if workers != [] {
      var n := |workers| - 1;
      BucketDistinct(workers[..n], outcomes[..n], id);
      BucketMember(workers[..n], outcomes[..n], id, workers[n]);
    }
  }

  lemma BucketPart(workers: seq<int>, outcomes: seq<Outcome>, id: int)
    requires |workers| == |outcomes| && Distinct(workers)
    ensures Members(Bucket(workers, outcomes, id)) <= Members(workers)
    ensures |Members(Bucket(workers, outcomes, id))| == |Bucket(workers, outcomes, id)|
  {
    BucketDistinct(workers, outcomes, id);
    DistinctSize(Bucket(workers, outcomes, id));
    forall w | w in Members(Bucket(workers, outcomes, id)) ensures w in Members(workers) {
      BucketMember(workers, outcomes, id, w);
    }
  }

  /** Any two successful transactions over the same workers share one that voted for both. */
  lemma SuccessesShare(workers: seq<int>, a: seq<Outcome>, x: int, b: seq<Outcome>, y: int)
    requires |workers| == |a| == |b| && Distinct(workers)
    requires Succeeds(workers, a, x) && Succeeds(workers, b, y)
    ensures exists i :: 0 <= i < |workers| && a[i] == Replied(x) && b[i] == Replied(y)
  {
    hide Bucket;
    BucketPart(workers, a, x);
    BucketPart(workers, b, y);
    DistinctSize(workers);
    Overlap(Members(Bucket(workers, a, x)), Members(Bucket(workers, b, y)), Members(workers));
    var w :| w in Bucket(workers, a, x) && w in Bucket(workers, b, y);
    BucketMember(workers, a, x, w);
    BucketMember(workers, b, y, w);
    var i :| 0 <= i < |workers| && workers[i] == w && a[i] == Replied(x);
    var j :| 0 <= j < |workers| && workers[j] == w && b[j] == Replied(y);
    assert i == j;
  }

  // --- What FinalizeTransaction sends ---

  datatype Message = Message(worker: int, commit: bool, id: int)

  /** On success every worker reached is told to commit the winning ID, whatever ID it had
      returned; otherwise each is told to roll back its own. */
  function Order(decision: Option<int>, worker: int, id: int): Message {
    if decision.Some? then Message(worker, true, decision.value) else Message(worker, false, id)
  }

  method SendGroup(decision: Option<int>, id: int, group: seq<int>, before: set<Message>) returns (sent: set<Message>)
    ensures forall x :: x in sent <==> x in before || exists i :: 0 <= i < |group| && x == Order(decision, group[i], id)
  {
    sent := before;
    for i := 0 to |group|
      invariant forall x :: x in sent <==> x in before || exists j :: 0 <= j < i && x == Order(decision, group[j], id)
    {
      sent := sent + {Order(decision, group[i], id)};
    }
  }

  ghost predicate ToldIn(m: map<int, seq<int>>, ids: set<int>, decision: Option<int>, x: Message) {
    exists id, i :: id in m && id in ids && 0 <= i < |m[id]| && x == Order(decision, m[id][i], id)
  }

  method SendAll(decision: Option<int>, m: map<int, seq<int>>) returns (sent: set<Message>)
    ensures forall x :: x in sent <==> ToldIn(m, m.Keys, decision, x)
  {
    hide Order;
    sent := {};
    var left := m.Keys;
    while left != {}
      invariant left <= m.Keys
      invariant forall x :: x in sent <==> ToldIn(m, m.Keys - left, decision, x)
      decreases |left|
    {
      NonEmpty(left);
      var id :| id in left;
      ghost var done := m.Keys - left;
      sent := SendGroup(decision, id, m[id], sent);
      left := left - {id};
      forall x ensures ToldIn(m, m.Keys - left, decision, x)
                       <==> ToldIn(m, done, decision, x) || exists i :: 0 <= i < |m[id]| && x == Order(decision, m[id][i], id) {
        ToldMore(m, done, m.Keys - left, id, decision, x);
      }
    }
    assert m.Keys - left == m.Keys;
  }

  lemma ToldMore(m: map<int, seq<int>>, done: set<int>, more: set<int>, id: int, decision: Option<int>, x: Message)
    requires id in m && forall k :: k in more <==> k in done || k == id
    ensures ToldIn(m, more, decision, x)
            <==> ToldIn(m, done, decision, x) || exists i :: 0 <= i < |m[id]| && x == Order(decision, m[id][i], id)
  {
    hide Order;
    if ToldIn(m, more, decision, x) {
      var k, i :| k in m && k in more && 0 <= i < |m[k]| && x == Order(decision, m[k][i], k);
      assert k == id || ToldIn(m, done, decision, x);
    }
  }

  /** The messages that are due: with a decision every worker that replied is told to commit
      the winning ID, without one it is told to roll back the ID it returned. */
  ghost predicate Due(workers: seq<int>, outcomes: seq<Outcome>, decision: Option<int>, x: Message)
    requires |workers| == |outcomes|
  {
    && x.commit == decision.Some?
    && (decision.Some? ==> x.id == decision.value)
    && exists i :: 0 <= i < |workers| && outcomes[i].Replied? && workers[i] == x.worker && (decision.None? ==> outcomes[i].id == x.id)
  }

  /** FinalizeTransaction: the decision, and one order to every worker that replied. */
  method FinalizeTransaction(workers: seq<int>, outcomes: seq<Outcome>) returns (id: Option<int>, sent: set<Message>)
    requires |workers| == |outcomes|
    ensures id.Some? ==> Succeeds(workers, outcomes, id.value)
    ensures id.None? ==> forall k :: !Succeeds(workers, outcomes, k)
    ensures forall x :: x in sent <==> Due(workers, outcomes, id, x)
  {
    hide Succeeds, Bucket, Order;
    var m: map<int, seq<int>>;
    id, m := Decide(workers, outcomes);
    sent := SendAll(id, m);
    forall x ensures x in sent <==> Due(workers, outcomes, id, x) {
      ToldReplied(workers, outcomes, m, id, x);
      OrderMeaning(workers, outcomes, id, x);
    }
  }

  lemma OrderMeaning(workers: seq<int>, outcomes: seq<Outcome>, id: Option<int>, x: Message)
    requires |workers| == |outcomes|
    ensures (exists i :: 0 <= i < |workers| && outcomes[i].Replied? && x == Order(id, workers[i], outcomes[i].id))
            <==> Due(workers, outcomes, id, x)
  {
    if i :| 0 <= i < |workers| && outcomes[i].Replied? && x == Order(id, workers[i], outcomes[i].id) {
      assert outcomes[i].Replied? && workers[i] == x.worker;
    }
    if Due(workers, outcomes, id, x) {
      var i :| 0 <= i < |workers| && outcomes[i].Replied? && workers[i] == x.worker && (id.None? ==> outcomes[i].id == x.id);
      assert x == Order(id, workers[i], outcomes[i].id);
    }
  }

  lemma ToldReplied(workers: seq<int>, outcomes: seq<Outcome>, m: map<int, seq<int>>, decision: Option<int>, x: Message)
    requires |workers| == |outcomes| && Groups(m, workers, outcomes)
    ensures ToldIn(m, m.Keys, decision, x)
            <==> exists i :: 0 <= i < |workers| && outcomes[i].Replied? && x == Order(decision, workers[i], outcomes[i].id)
  {
    hide Bucket, Order;
    if ToldIn(m, m.Keys, decision, x) {
      var id, j :| id in m && 0 <= j < |m[id]| && x == Order(decision, m[id][j], id);
      BucketMember(workers, outcomes, id, m[id][j]);
      assert m[id][j] in m[id];
    }
    if i :| 0 <= i < |workers| && outcomes[i].Replied? && x == Order(decision, workers[i], outcomes[i].id) {
      var id := outcomes[i].id;
      BucketMember(workers, outcomes, id, workers[i]);
      SomeBucket(workers, outcomes, id);
      var j :| 0 <= j < |m[id]| && m[id][j] == workers[i];
    }
  }
}
