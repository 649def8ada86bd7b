/** The query layer of `db.py`: the optional filters of `search`, the list of
    conditions they contribute, the search itself, and the two random helpers. */
module Db {
  import opened Wrappers
  import opened Documents
  import opened Predicates
  import opened Store

  /** `author` and `title`: absent, a string to match exactly, or a presence flag. */
  datatype TextFilter = TextUnset | TextEquals(value: string) | TextPresence(present: bool)

  /** `like_count`: absent, a pair of optional bounds, or a presence flag. */
  datatype CountFilter = CountUnset | CountRange(lo: Option<int>, hi: Option<int>) | CountPresence(present: bool)

  /** `tags`: absent, or a mode (`"all"` or `"any"`) with the tags to look for. */
  datatype TagsFilter = TagsUnset | TagsMatch(mode: string, tags: seq<string>)

  /** The four optional arguments of `search`. */
  datatype Filters = Filters(author: TextFilter, title: TextFilter, likeCount: CountFilter, tags: TagsFilter)

  const NoFilters := Filters(TextUnset, TextUnset, CountUnset, TagsUnset)

  // What each filter asks of a document, stated directly on the document.

  predicate TextMatches(field: string, f: TextFilter, d: Doc)
  {
    match f
    case TextUnset => true
    case TextEquals(s) => field in d && d[field] == JStr(s)
    case TextPresence(b) => (field in d) == b
  }

  predicate CountMatches(field: string, f: CountFilter, d: Doc)
  {
    match f
    case CountUnset => true
    case CountRange(lo, hi) =>
      (Truthy(lo) ==> field in d && d[field].JInt? && lo.value <= d[field].n) &&
      (Truthy(hi) ==> field in d && d[field].JInt? && d[field].n <= hi.value)
    case CountPresence(b) => (field in d) == b
  }

  predicate TagsMatches(field: string, f: TagsFilter, d: Doc)
  {
    match f
    case TagsUnset => true
    case TagsMatch(mode, ts) =>
      if mode == "all" then
        field in d && d[field].JList? && forall t :: t in ts ==> t in d[field].items
      else if mode == "any" then
        field in d && d[field].JList? && exists t :: t in d[field].items && t in ts
      else true
  }

  /** A document satisfies every supplied filter. */
  predicate Matches(q: Filters, d: Doc)
  {
    TextMatches("author", q.author, d) && TextMatches("title", q.title, d) &&
    CountMatches("like_count", q.likeCount, d) && TagsMatches("tags", q.tags, d)
  }

  // The conditions each argument contributes.

  /** A string adds an equality condition, a flag a presence condition: at most one. */
  function TextConditions(field: string, f: TextFilter): (cs: seq<Pred>)
    ensures |cs| == if f.TextUnset? then 0 else 1
    ensures forall d: Doc :: AllHold(cs, d) <==> TextMatches(field, f, d)
  {
    match f
    case TextUnset => []
    case TextEquals(s) => AllHoldSingleton(MakeEq(field, JStr(s))); [MakeEq(field, JStr(s))]
    case TextPresence(b) => AllHoldSingleton(MakeBool(field, b)); [MakeBool(field, b)]
  }

  /** A pair of bounds adds up to two range conditions, a flag one presence condition. */
  function CountConditions(field: string, f: CountFilter): (cs: seq<Pred>)
    ensures |cs| <= 2
    ensures f.CountPresence? ==> |cs| == 1
    ensures forall d: Doc :: AllHold(cs, d) <==> CountMatches(field, f, d)
  {
    match f
    case CountUnset => []
    case CountRange(lo, hi) => ThresholdConditions(field, lo, hi)
    case CountPresence(b) => AllHoldSingleton(MakeBool(field, b)); [MakeBool(field, b)]
  }

  /** Mode `"all"` or `"any"` adds one condition; any other mode adds none. */
  function TagsConditions(field: string, f: TagsFilter): (cs: seq<Pred>)
    ensures |cs| == if f.TagsMatch? && (f.mode == "all" || f.mode == "any") then 1 else 0
    ensures forall d: Doc :: AllHold(cs, d) <==> TagsMatches(field, f, d)
  {
    match f
    case TagsUnset => []
    case TagsMatch(mode, ts) =>
      if mode == "all" then AllHoldSingleton(MakeAll(field, ts)); [MakeAll(field, ts)]
      else if mode == "any" then AllHoldSingleton(MakeAny(field, ts)); [MakeAny(field, ts)]
      else []
  }

  /** The list `search` builds: `noop` first, then author, title, like_count, tags. */
  function Conditions(q: Filters): (cs: seq<Pred>)
    ensures 1 <= |cs| <= 6 && cs[0] == Noop
  {
    [Noop] + TextConditions("author", q.author) + TextConditions("title", q.title) +
    CountConditions("like_count", q.likeCount) + TagsConditions("tags", q.tags)
  }

  /** What `search` returns for a store and a set of filters. */
  function SearchResult(store: seq<Doc>, q: Filters): (r: seq<Doc>)
    ensures |r| <= |store|
    ensures forall i :: 0 <= i < |r| ==> r[i] in store && Matches(q, r[i])
  {
    var p := FoldAnd(Conditions(q));
    forall d: Doc ensures Eval(p, d) <==> Matches(q, d) {
      ConditionsMeaning(q, d);
    }
    StoreSearch(store, p)
  }

  /** The conditions together hold exactly when the document satisfies every filter. */
  lemma ConditionsMeaning(q: Filters, d: Doc)
    ensures AllHold(Conditions(q), d) <==> Matches(q, d)
  {
    var a := [Noop];
    var b := TextConditions("author", q.author);
    var c := TextConditions("title", q.title);
    var e := CountConditions("like_count", q.likeCount);
    var f := TagsConditions("tags", q.tags);
    AllHoldAppend(a, b, d);
    AllHoldAppend(a + b, c, d);
    AllHoldAppend(a + b + c, e, d);
    AllHoldAppend(a + b + c + e, f, d);
    assert AllHold(a, d) by {
      assert forall i :: 0 <= i < |a| ==> a[i] == Noop;
    }
  }

  /** `search` keeps exactly the store's documents that satisfy every filter. */
  lemma SearchIsFilter(store: seq<Doc>, q: Filters)
    ensures SearchResult(store, q) == Select(store, d => Matches(q, d))
  {
    var p := FoldAnd(Conditions(q));
    forall d | d in store ensures Eval(p, d) == Matches(q, d) {
      ConditionsMeaning(q, d);
    }
    SelectCongruent(store, d => Eval(p, d), d => Matches(q, d));
  }

  /** Each result satisfies every filter, every matching store document is a
      result, as often as it is stored, and the results keep store order. */
  lemma SearchResultExact(store: seq<Doc>, q: Filters, d: Doc)
    ensures d in SearchResult(store, q) <==> d in store && Matches(q, d)
    ensures multiset(SearchResult(store, q))[d] == if Matches(q, d) then multiset(store)[d] else 0
    ensures Subsequence(SearchResult(store, q), store)
  {
    SearchIsFilter(store, q);
    SelectMembers(store, d => Matches(q, d), d);
    SelectCounts(store, d => Matches(q, d), d);
    SelectKeepsOrder(store, d => Matches(q, d));
  }

  /** With no filters the only condition is `noop` and every document is returned. */
  lemma SearchWithoutFilters(store: seq<Doc>)
    ensures Conditions(NoFilters) == [Noop]
    ensures SearchResult(store, NoFilters) == store
  {
    assert Conditions(NoFilters) == [Noop];
    SelectEverything(store, d => Eval(Noop, d));
  }

  /** With both bounds truthy every result has `lo <= like_count <= hi`. */
  lemma SearchRangeBounds(store: seq<Doc>, q: Filters, lo: int, hi: int, d: Doc)
    requires q.likeCount == CountRange(Some(lo), Some(hi)) && lo != 0 && hi != 0
    requires d in SearchResult(store, q)
    ensures "like_count" in d && d["like_count"].JInt?
    ensures lo <= d["like_count"].n <= hi
  {
  }

  /** With only the lower bound truthy and no other filter, the search returns
      exactly the documents with `like_count >= lo`. */
  lemma SearchLowerBoundOnly(store: seq<Doc>, lo: int, hi: Option<int>, d: Doc)
    requires lo != 0 && !Truthy(hi)
    ensures d in SearchResult(store, NoFilters.(likeCount := CountRange(Some(lo), hi))) <==>
      d in store && "like_count" in d && d["like_count"].JInt? && lo <= d["like_count"].n
  {
    SearchResultExact(store, NoFilters.(likeCount := CountRange(Some(lo), hi)), d);
  }

  /** A zero bound counts as no bound: `(0, 0)` filters nothing on like_count. */
  lemma SearchZeroBoundsIgnored(store: seq<Doc>, q: Filters)
    requires q.likeCount == CountRange(Some(0), Some(0))
    ensures SearchResult(store, q) == SearchResult(store, q.(likeCount := CountUnset))
  {
  }

  /** Mode `"all"`: every result's tags include every requested tag. */
  lemma SearchTagsAll(store: seq<Doc>, q: Filters, ts: seq<string>, d: Doc)
    requires q.tags == TagsMatch("all", ts)
    requires d in SearchResult(store, q)
    ensures "tags" in d && d["tags"].JList?
    ensures forall t :: t in ts ==> t in d["tags"].items
  {
  }

  /** Mode `"any"`: every result's tags share at least one requested tag. */
  lemma SearchTagsAny(store: seq<Doc>, q: Filters, ts: seq<string>, d: Doc)
    requires q.tags == TagsMatch("any", ts)
    requires d in SearchResult(store, q)
    ensures "tags" in d && d["tags"].JList?
    ensures exists t :: t in d["tags"].items && t in ts
  {
  }

  /** Any other tag mode adds no condition. */
  lemma SearchOtherTagModeIgnored(store: seq<Doc>, q: Filters)
    requires q.tags.TagsMatch? && q.tags.mode != "all" && q.tags.mode != "any"
    ensures SearchResult(store, q) == SearchResult(store, q.(tags := TagsUnset))
  {
  }

  /** A presence flag `true` and a flag `false` on the same field split the store:
      each document is returned by exactly one of the two searches. */
  lemma PresencePartitionsStore(store: seq<Doc>, field: string)
    ensures |StoreSearch(store, MakeBool(field, true))| + |StoreSearch(store, MakeBool(field, false))| == |store|
    ensures forall d :: d in store ==>
      (d in StoreSearch(store, MakeBool(field, true)) <==> d !in StoreSearch(store, MakeBool(field, false)))
  {
    var yes := MakeBool(field, true);
    var no := MakeBool(field, false);
    SelectPartition(store, d => Eval(yes, d), d => Eval(no, d));
  }

  /** Two quotes by the same author; only the first has at least five likes. */
  lemma SearchExampleRumi()
    ensures var d1 := map["author" := JStr("Rumi"), "like_count" := JInt(10), "tags" := JList(["life"])];
            var d2 := map["author" := JStr("Rumi"), "like_count" := JInt(2), "tags" := JList(["wisdom", "life"])];
            SearchResult([d1, d2], NoFilters.(author := TextEquals("Rumi"), likeCount := CountRange(Some(5), None))) == [d1]
  {
  }

  /** `search` as the source writes it: grow the list of conditions field by
      field, fold it with `&`, and let the store scan for the matches. */
  method Search(store: seq<Doc>, author: TextFilter, title: TextFilter, likeCount: CountFilter, tags: TagsFilter)
    returns (docs: seq<Doc>)
    ensures docs == SearchResult(store, Filters(author, title, likeCount, tags))
    ensures forall d :: d in docs <==> d in store && Matches(Filters(author, title, likeCount, tags), d)
  {
    var conditions := [Noop];
    match author {
      case TextUnset =>
      case TextEquals(s) => conditions := conditions + [MakeEq("author", JStr(s))];
      case TextPresence(b) => conditions := conditions + [MakeBool("author", b)];
    }
    assert conditions == [Noop] + TextConditions("author", author);
    match title {
      case TextUnset =>
      case TextEquals(s) => conditions := conditions + [MakeEq("title", JStr(s))];
      case TextPresence(b) => conditions := conditions + [MakeBool("title", b)];
    }
    ghost var prefix := [Noop] + TextConditions("author", author) + TextConditions("title", title);
    assert conditions == prefix;
    match likeCount {
      case CountUnset =>
      case CountRange(lo, hi) =>
        var range := MakeThresholdConditions("like_count", lo, hi);
        conditions := conditions + range;
      case CountPresence(b) => conditions := conditions + [MakeBool("like_count", b)];
    }
    assert conditions == prefix + CountConditions("like_count", likeCount);
    match tags {
      case TagsUnset =>
      case TagsMatch(mode, ts) =>
        if mode == "all" {
          conditions := conditions + [MakeAll("tags", ts)];
        } else if mode == "any" {
          conditions := conditions + [MakeAny("tags", ts)];
        }
    }
    var q := Filters(author, title, likeCount, tags);
    assert conditions == Conditions(q);
    docs := StoreSearch(store, FoldAnd(conditions));
    forall d ensures d in docs <==> d in store && Matches(q, d) {
      SearchResultExact(store, q, d);
    }
  }

  /** `random_choice(vals)` with the index `random.choice` draws given as `draw`:
      an empty sequence is an error; otherwise the result is an element. */
  function RandomChoice<T>(vals: seq<T>, draw: nat): (r: Result<T>)
    requires |vals| > 0 ==> draw < |vals|
    ensures r.Ok? <==> |vals| > 0
    ensures r.Ok? ==> r.value in vals
  {
    if |vals| == 0 then Err(EmptySequence) else Ok(vals[draw])
  }

  /** Every element can be drawn, and a one-element sequence always yields it. */
  lemma RandomChoiceReaches<T>(vals: seq<T>, v: T)
    requires v in vals
    ensures exists draw: nat :: draw < |vals| && RandomChoice(vals, draw) == Ok(v)
    ensures vals == [v] ==> forall draw: nat :: draw < 1 ==> RandomChoice(vals, draw) == Ok(v)
  {
    var k :| 0 <= k < |vals| && vals[k] == v;
    assert RandomChoice(vals, k) == Ok(v);
  }

  /** `get_random_doc()` with the id `random.randint(1, len(db))` draws given as
      `randomId`: an empty store is an error (an empty range); otherwise the id
      is found and names a stored document. */
  function GetRandomDoc(store: seq<Doc>, randomId: int): (r: Result<Option<Doc>>)
    requires |store| > 0 ==> 1 <= randomId <= |store|
    ensures r.Ok? <==> |store| > 0
    ensures r.Ok? ==> r.value.Some? && r.value.value in store
  {
    var length := |store|;
    if length < 1 then Err(EmptyRange) else Ok(GetById(store, randomId))
  }

  /** Every stored document has an id that `get_random_doc` can draw. */
  lemma GetRandomDocReaches(store: seq<Doc>, d: Doc)
    requires d in store
    ensures exists id :: 1 <= id <= |store| && GetRandomDoc(store, id) == Ok(Some(d))
  {
    var k :| 0 <= k < |store| && store[k] == d;
    assert GetRandomDoc(store, k + 1) == Ok(Some(d));
  }
}
