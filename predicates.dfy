/** The predicate language of the query layer: one constructor per kind of
    condition `db.py` builds, the meaning of each over a document, the builder
    functions `make_*_condition`, and the left fold with `&` that `search`
    applies to its list of conditions. */
module Predicates {
  import opened Wrappers
  import opened Documents

  datatype Pred =
    | Noop                                      // matches every document
    | Eq(field: string, value: Value)           // q[field] == value
    | Exists(field: string)                     // q[field].exists()
    | NotExists(field: string)                  // ~q[field].exists()
    | Ge(field: string, bound: int)             // q[field] >= bound
    | Le(field: string, bound: int)             // q[field] <= bound
    | All(field: string, required: seq<string>) // q[field].all(required)
    | Any(field: string, wanted: seq<string>)   // q[field].any(wanted)
    | And(left: Pred, right: Pred)              // left & right

  /** `all(e in items for e in cond)`, scanning `cond` from the front. */
  predicate EveryIn(cond: seq<string>, items: seq<string>)
    decreases |cond|
  {
    |cond| == 0 || (cond[0] in items && EveryIn(cond[1..], items))
  }

  /** `any(e in cond for e in items)`, scanning `items` from the front. */
  predicate SomeIn(items: seq<string>, cond: seq<string>)
    decreases |items|
  {
    |items| > 0 && (items[0] in cond || SomeIn(items[1..], cond))
  }

  /** The meaning of a condition for one document. A condition on a field the
      document lacks fails (except NotExists); a numeric bound needs an integer,
      and `all`/`any` need a list. */
  predicate Eval(p: Pred, d: Doc)
  {
    match p
    case Noop => true
    case Eq(f, v) => f in d && d[f] == v
    case Exists(f) => f in d
    case NotExists(f) => f !in d
    case Ge(f, b) => f in d && d[f].JInt? && d[f].n >= b
    case Le(f, b) => f in d && d[f].JInt? && d[f].n <= b
    case All(f, ts) => f in d && d[f].JList? && EveryIn(ts, d[f].items)
    case Any(f, ts) => f in d && d[f].JList? && SomeIn(d[f].items, ts)
    case And(l, r) => Eval(l, d) && Eval(r, d)
  }

  /** Every condition of the list holds of `d`. */
  predicate AllHold(conditions: seq<Pred>, d: Doc)
  {
    forall i :: 0 <= i < |conditions| ==> Eval(conditions[i], d)
  }

  /** The scan for `all` is the subset test: every required element occurs. */
  lemma {:induction false} EveryInIsSubset(cond: seq<string>, items: seq<string>)
    ensures EveryIn(cond, items) <==> (forall t :: t in cond ==> t in items)
    decreases |cond|
  {
    if |cond| > 0 {
      EveryInIsSubset(cond[1..], items);
      assert forall t :: t in cond <==> t == cond[0] || t in cond[1..];
    }
  }

  /** The scan for `any` is the intersection test: some element is shared. */
  lemma {:induction false} SomeInIsIntersection(items: seq<string>, cond: seq<string>)
    ensures SomeIn(items, cond) <==> (exists t :: t in items && t in cond)
    decreases |items|
  {
    if |items| > 0 {
      SomeInIsIntersection(items[1..], cond);
      assert forall t :: t in items <==> t == items[0] || t in items[1..];
    }
  }

  function MakeEq(field: string, value: Value): (p: Pred)
    ensures forall d: Doc :: Eval(p, d) <==> field in d && d[field] == value
  {
    Eq(field, value)
  }

  function MakeExists(field: string): (p: Pred)
    ensures forall d: Doc :: Eval(p, d) <==> field in d
  {
    Exists(field)
  }

  function MakeNotExists(field: string): (p: Pred)
    ensures forall d: Doc :: Eval(p, d) <==> field !in d
    ensures forall d: Doc :: Eval(p, d) != Eval(MakeExists(field), d)
  {
    NotExists(field)
  }

  /** A presence flag: true asks for the field, false for its absence. */
  function MakeBool(field: string, present: bool): (p: Pred)
    ensures forall d: Doc :: Eval(p, d) <==> (field in d) == present
  {
    if present then MakeExists(field) else MakeNotExists(field)
  }

  /** For every document exactly one of the two presence conditions holds. */
  lemma BoolConditionsComplementary(field: string, d: Doc)
    ensures Eval(MakeBool(field, true), d) != Eval(MakeBool(field, false), d)
    ensures Eval(MakeBool(field, true), d) <==> field in d
  {
  }

  function MakeGe(field: string, bound: int): (p: Pred)
    ensures forall d: Doc :: Eval(p, d) <==> field in d && d[field].JInt? && bound <= d[field].n
  {
    Ge(field, bound)
  }

  function MakeLe(field: string, bound: int): (p: Pred)
    ensures forall d: Doc :: Eval(p, d) <==> field in d && d[field].JInt? && d[field].n <= bound
  {
    Le(field, bound)
  }

  /** A bound counts only when Python finds it truthy: None and 0 do not. */
  predicate Truthy(bound: Option<int>)
  {
    bound.Some? && bound.value != 0
  }

  /** `make_threshold_conditions`: one condition per truthy bound, lower first. */
  function ThresholdConditions(field: string, lo: Option<int>, hi: Option<int>): (cs: seq<Pred>)
    ensures |cs| == (if Truthy(lo) then 1 else 0) + (if Truthy(hi) then 1 else 0)
    ensures forall d: Doc :: AllHold(cs, d) <==>
      (Truthy(lo) ==> field in d && d[field].JInt? && lo.value <= d[field].n) &&
      (Truthy(hi) ==> field in d && d[field].JInt? && d[field].n <= hi.value)
  {
    var lower := if Truthy(lo) then [MakeGe(field, lo.value)] else [];
    var upper := if Truthy(hi) then [MakeLe(field, hi.value)] else [];
    forall d: Doc ensures AllHold(lower + upper, d) <==>
      (Truthy(lo) ==> field in d && d[field].JInt? && lo.value <= d[field].n) &&
      (Truthy(hi) ==> field in d && d[field].JInt? && d[field].n <= hi.value)
    {
      AllHoldAppend(lower, upper, d);
      assert AllHold(lower, d) <==> !Truthy(lo) || Eval(lower[0], d);
      assert AllHold(upper, d) <==> !Truthy(hi) || Eval(upper[0], d);
    }
    lower + upper
  }

  /** `make_threshold_conditions` as the source writes it, appending to a list. */
  method MakeThresholdConditions(field: string, lo: Option<int>, hi: Option<int>)
    returns (conditions: seq<Pred>)
    ensures conditions == ThresholdConditions(field, lo, hi)
    ensures |conditions| <= 2
    ensures forall d: Doc :: AllHold(conditions, d) <==>
      (Truthy(lo) ==> field in d && d[field].JInt? && lo.value <= d[field].n) &&
      (Truthy(hi) ==> field in d && d[field].JInt? && d[field].n <= hi.value)
  {
    conditions := [];
    if Truthy(lo) {
      conditions := conditions + [MakeGe(field, lo.value)];
    }
    if Truthy(hi) {
      conditions := conditions + [MakeLe(field, hi.value)];
    }
  }

  /** With both bounds 0 or absent no condition is produced. */
  lemma ZeroBoundsContributeNothing(field: string)
    ensures ThresholdConditions(field, Some(0), Some(0)) == []
    ensures ThresholdConditions(field, None, None) == []
  {
  }

  /** `q[field].all(required)`: the field is a list holding every required tag. */
  function MakeAll(field: string, required: seq<string>): (p: Pred)
    ensures forall d: Doc :: Eval(p, d) <==>
      field in d && d[field].JList? && (forall t :: t in required ==> t in d[field].items)
  {
    forall items: seq<string> ensures EveryIn(required, items) <==> (forall t :: t in required ==> t in items) {
      EveryInIsSubset(required, items);
    }
    All(field, required)
  }

  /** `q[field].any(wanted)`: the field is a list sharing a tag with `wanted`. */
  function MakeAny(field: string, wanted: seq<string>): (p: Pred)
    ensures forall d: Doc :: Eval(p, d) <==>
      field in d && d[field].JList? && (exists t :: t in d[field].items && t in wanted)
  {
    forall items: seq<string> ensures SomeIn(items, wanted) <==> (exists t :: t in items && t in wanted) {
      SomeInIsIntersection(items, wanted);
    }
    Any(field, wanted)
  }

  /** `reduce(lambda x, y: x & y, conditions)`: a left-nested conjunction. Python's
      `reduce` without an initial value raises on an empty list. */
  function FoldAnd(conditions: seq<Pred>): (p: Pred)
    requires |conditions| > 0
    ensures forall d: Doc :: Eval(p, d) <==> AllHold(conditions, d)
    decreases |conditions|
  {
    if |conditions| == 1 then conditions[0]
    else
      var init := conditions[..|conditions| - 1];
      assert forall i :: 0 <= i < |init| ==> init[i] == conditions[i];
      And(FoldAnd(init), conditions[|conditions| - 1])
  }

  /** A one-element list holds exactly when its element does. */
  lemma AllHoldSingleton(p: Pred)
    ensures forall d: Doc :: AllHold([p], d) <==> Eval(p, d)
  {
    forall d: Doc ensures AllHold([p], d) <==> Eval(p, d) {
      assert [p][0] == p;
    }
  }

  /** A list of conditions holds exactly when both of its parts hold. */
  lemma AllHoldAppend(a: seq<Pred>, b: seq<Pred>, d: Doc)
    ensures AllHold(a + b, d) <==> AllHold(a, d) && AllHold(b, d)
  {
    if AllHold(a, d) && AllHold(b, d) {
      forall i | 0 <= i < |a + b| ensures Eval((a + b)[i], d) {
        if i >= |a| {
          assert (a + b)[i] == b[i - |a|];
        }
      }
    }
    if AllHold(a + b, d) {
      forall i | 0 <= i < |a| ensures Eval(a[i], d) {
        assert (a + b)[i] == a[i];
      }
      forall i | 0 <= i < |b| ensures Eval(b[i], d) {
        assert (a + b)[|a| + i] == b[i];
      }
    }
  }
}
