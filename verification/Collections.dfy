/** Small facts about sets and sequences. */
module Collections {
  lemma NonEmpty(s: set<int>)
    ensures s == {} || exists c :: c in s
  {
    if forall c :: c !in s {
      assert s == {};
    }
  }

  lemma Assoc<T>(a: seq<T>, b: seq<T>, c: seq<T>)
    ensures a + (b + c) == (a + b) + c
  {
  }

  lemma DropHead<T>(s: seq<T>, k: nat, t: seq<T>)
    requires k < |s|
    ensures s[k..] + t == [s[k]] + (s[k + 1..] + t)
  {
    assert s[k..] == [s[k]] + s[k + 1..];
  }
}
