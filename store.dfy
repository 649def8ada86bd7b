/** The document store as the query layer sees it: a sequence of documents whose
    ids are their 1-based positions, a scan that keeps the documents a condition
    accepts (`db.search`), and lookup by id (`db.get(doc_id=...)`). */
module Store {
  import opened Wrappers
  import opened Documents
  import opened Predicates

  /** The documents of `store` that `keep` accepts, in store order. */
  function Select(store: seq<Doc>, keep: Doc -> bool): (r: seq<Doc>)
    ensures |r| <= |store|
    ensures forall i :: 0 <= i < |r| ==> r[i] in store && keep(r[i])
    decreases |store|
  {
    if store == [] then []
    else (if keep(store[0]) then [store[0]] else []) + Select(store[1..], keep)
  }

  /** `a` keeps a selection of the elements of `b` in their order. */
  predicate Subsequence(a: seq<Doc>, b: seq<Doc>)
    decreases |b|
  {
    if a == [] then true
    else if b == [] then false
    else if a[0] == b[0] then Subsequence(a[1..], b[1..])
    else Subsequence(a, b[1..])
  }

  /** `db.search(condition)`. */
  function StoreSearch(store: seq<Doc>, condition: Pred): (r: seq<Doc>)
    ensures |r| <= |store|
    ensures forall i :: 0 <= i < |r| ==> r[i] in store && Eval(condition, r[i])
  {
    Select(store, d => Eval(condition, d))
  }

  /** `db.get(doc_id=id)`: ids are 1-based positions; any other id is not found. */
  function GetById(store: seq<Doc>, id: int): (r: Option<Doc>)
    ensures r.Some? <==> 1 <= id <= |store|
    ensures r.Some? ==> r.value in store
  {
    if 1 <= id <= |store| then Some(store[id - 1]) else None
  }

  /** A selection holds each accepted document as often as the store does, and
      no other document. */
  lemma {:induction false} SelectCounts(store: seq<Doc>, keep: Doc -> bool, d: Doc)
    ensures multiset(Select(store, keep))[d] == if keep(d) then multiset(store)[d] else 0
    decreases |store|
  {
    if store != [] {
      SelectCounts(store[1..], keep, d);
      assert store == [store[0]] + store[1..];
    }
  }

  lemma {:induction false} SelectMembers(store: seq<Doc>, keep: Doc -> bool, d: Doc)
    ensures d in Select(store, keep) <==> d in store && keep(d)
  {
    SelectCounts(store, keep, d);
    assert d in Select(store, keep) <==> multiset(Select(store, keep))[d] > 0;
    assert d in store <==> multiset(store)[d] > 0;
  }

  lemma {:induction false} SelectKeepsOrder(store: seq<Doc>, keep: Doc -> bool)
    ensures Subsequence(Select(store, keep), store)
    decreases |store|
  {
    if store != [] {
      SelectKeepsOrder(store[1..], keep);
      var rest := Select(store[1..], keep);
      if keep(store[0]) {
        assert Select(store, keep) == [store[0]] + rest;
        assert ([store[0]] + rest)[1..] == rest;
      } else {
        assert Select(store, keep) == rest;
        SubsequenceOfTail(rest, store);
      }
    }
  }

  /** A subsequence of the tail is a subsequence of the whole. */
  lemma {:induction false} SubsequenceOfTail(a: seq<Doc>, b: seq<Doc>)
    requires b != [] && Subsequence(a, b[1..])
    ensures Subsequence(a, b)
    decreases |b|, 0
  {
    if a != [] && a[0] == b[0] {
      SubsequenceDropFirst(a, b[1..]);
    }
  }

  /** Dropping the first element of a subsequence keeps it a subsequence. */
  lemma {:induction false} SubsequenceDropFirst(a: seq<Doc>, b: seq<Doc>)
    requires a != [] && Subsequence(a, b)
    ensures Subsequence(a[1..], b)
    decreases |b|, 1
  {
    if a[0] == b[0] {
      SubsequenceOfTail(a[1..], b);
    } else {
      SubsequenceDropFirst(a, b[1..]);
      SubsequenceOfTail(a[1..], b);
    }
  }

  /** Two tests that agree on the store select the same documents. */
  lemma {:induction false} SelectCongruent(store: seq<Doc>, f: Doc -> bool, g: Doc -> bool)
    requires forall d :: d in store ==> f(d) == g(d)
    ensures Select(store, f) == Select(store, g)
    decreases |store|
  {
    if store != [] {
      assert store[0] in store;
      assert forall d :: d in store[1..] ==> d in store;
      SelectCongruent(store[1..], f, g);
    }
  }

  /** A test that accepts every document selects the whole store. */
  lemma {:induction false} SelectEverything(store: seq<Doc>, keep: Doc -> bool)
    requires forall d :: d in store ==> keep(d)
    ensures Select(store, keep) == store
    decreases |store|
  {
    if store != [] {
      assert store[0] in store;
      assert forall d :: d in store[1..] ==> d in store;
      SelectEverything(store[1..], keep);
      assert Select(store, keep) == [store[0]] + Select(store[1..], keep);
      assert store == [store[0]] + store[1..];
    }
  }

  /** Two tests that disagree on every document split the store between them. */
  lemma {:induction false} SelectPartition(store: seq<Doc>, f: Doc -> bool, g: Doc -> bool)
    requires forall d :: d in store ==> f(d) != g(d)
    ensures |Select(store, f)| + |Select(store, g)| == |store|
    ensures forall d :: d in store ==> (d in Select(store, f) <==> d !in Select(store, g))
    decreases |store|
  {
    if store != [] {
      assert store[0] in store;
      assert forall d :: d in store[1..] ==> d in store;
      SelectPartition(store[1..], f, g);
    }
    forall d | d in store ensures d in Select(store, f) <==> d !in Select(store, g) {
      SelectMembers(store, f, d);
      SelectMembers(store, g, d);
    }
  }
}
