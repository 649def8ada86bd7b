# Quote search: a Dafny model of the query layer of `db.py`

The quotes service stores quote documents and answers read-only queries over them. This project models its query layer. `search` takes four optional filters: author, title, like-count range and tags. It turns each supplied filter into zero or more conditions and starts the list with the catch-all `noop`. It folds the list with `&` and returns the stored documents the folded condition accepts, in store order. Two helpers pick a random element: `random_choice` from a result list, and `get_random_doc` from the whole store by id.

Modules:

- `Wrappers` (`wrappers.dfy`): `Option`, and `Result` with the two errors the random helpers can raise.
- `Documents` (`documents.dfy`): a document is a `map<string, Value>`. A `Value` is a JSON string, integer, list of strings or null. A field the quote lacks is not a key.
- `Predicates` (`predicates.dfy`): the condition language `Pred` has `Noop`, `Eq`, `Exists`, `NotExists`, `Ge`, `Le`, `All`, `Any` and `And`. `Eval` gives each condition its meaning. This module also holds the `make_*_condition` builders, `make_threshold_conditions` (as a method that appends, like the source, and as the function that specifies it) and the `reduce(&)` fold.
- `Store` (`store.dfy`): the document store. Ids are 1-based positions. `Select` is the store's scan, `StoreSearch` is `db.search(cond)` and `GetById` is `db.get(doc_id=…)`. Lemmas cover multiplicity, order, congruence and partition of a scan.
- `Db` (`db.dfy`): each dynamically typed argument becomes a sum type. `author` and `title` are a `TextFilter` (unset, string or presence flag). `like_count` is a `CountFilter` (unset, bound pair or presence flag). `tags` is a `TagsFilter` (unset, or mode plus list). `Conditions` is the list `search` builds and `Search` is the method that builds it step by step. `Matches` states directly on the document what every filter asks. The random helpers take the drawn index or id as an argument.

Semantics taken over from the query library as `db.py` uses it:
- A condition on a missing field fails.
- `exists()` holds whenever the key is present, even when its value is null.
- `all(ts)` needs the field to be a list that contains every element of `ts`. It is computed as `all(e in value for e in ts)`.
- `any(ts)` needs the field to be a list that shares an element with `ts`. It is computed as `any(e in ts for e in value)`.

Behaviours of the code that a reader might not expect, kept as written:
- Presence means "key present". A null value counts as present.
- A tag mode other than `"all"` or `"any"` is silently ignored. It is not rejected.
- An empty sequence passed to `random_choice` is the error `random.choice` raises. The model writes it as `Err(EmptySequence)`.

## Model

| member | source | states |
|---|---|---|
| `Predicates.MakeEq` | db.py:17-18 | the condition holds exactly when the document has the field and its value equals the given value |
| `Predicates.MakeExists` | db.py:21-22 | holds exactly when the field is a key of the document |
| `Predicates.MakeNotExists` | db.py:25-26 | holds exactly when the field is absent, i.e. always the opposite of the existence condition |
| `Predicates.MakeBool` | db.py:29-34 | flag true: holds iff the field is present; flag false: holds iff it is absent |
| `Predicates.BoolConditionsComplementary` | db.py:29-34 | for every document exactly one of the two presence conditions holds |
| `Predicates.MakeGe` | db.py:37-38 | holds iff the field is an integer at least the bound |
| `Predicates.MakeLe` | db.py:41-42 | holds iff the field is an integer at most the bound |
| `Predicates.ThresholdConditions` | db.py:45-53 | one condition per truthy bound, i.e. one neither `None` nor 0 (0 to 2 conditions); together they hold iff every truthy bound is respected |
| `Predicates.MakeThresholdConditions` | db.py:45-53 | the appending method yields the same list, at most two conditions, with the same meaning |
| `Predicates.ZeroBoundsContributeNothing` | db.py:49-52 | bounds `(0, 0)` and `(None, None)` yield no condition |
| `Predicates.EveryInIsSubset` | db.py:56-59 | the element-by-element `all` scan is exactly the subset test |
| `Predicates.SomeInIsIntersection` | db.py:62-65 | the element-by-element `any` scan is exactly the non-empty-intersection test |
| `Predicates.MakeAll` | db.py:56-59 | holds iff the field is a list containing every given tag |
| `Predicates.MakeAny` | db.py:62-65 | holds iff the field is a list sharing at least one tag with the given ones |
| `Predicates.FoldAnd` | db.py:110 | the left fold with `&` of a non-empty list holds iff every condition of the list holds |
| `Predicates.AllHoldAppend` | db.py:99-101 | extending the list with more conditions conjoins their meanings |
| `Store.Select` | db.py:110 | the store's scan returns at most the store's size, and only stored documents the test accepts |
| `Store.StoreSearch` | db.py:110 | `db.search(cond)` returns at most the store's size, and only stored documents on which the condition holds |
| `Store.GetById` | db.py:75 | an id is found iff it lies in 1..length, and then names a stored document |
| `Store.SelectCounts` | db.py:110 | the scan keeps each accepted document exactly as often as it is stored, and drops the others |
| `Store.SelectMembers` | db.py:110 | a document is in the scan's result iff it is stored and accepted |
| `Store.SelectKeepsOrder` | db.py:110 | the scan's result is a subsequence of the store (store order kept) |
| `Store.SelectEverything` | db.py:86 | a condition that accepts everything returns the whole store |
| `Store.SelectPartition` | db.py:29-34 | two tests that disagree on every document split the store into two disjoint results whose sizes sum to the store's |
| `Db.TextConditions` | db.py:87-96 | a string adds one equality condition and a flag adds one presence condition; unset adds none; together they mean the filter |
| `Db.CountConditions` | db.py:97-103 | a bound pair adds up to two range conditions and a flag adds one presence condition; together they mean the filter |
| `Db.TagsConditions` | db.py:104-108 | mode "all" or "any" adds one condition and any other mode none; together they mean the filter |
| `Db.Conditions` | db.py:86-108 | the list starts with `noop` and holds 1 to 6 conditions |
| `Db.SearchResult` | db.py:79-111 | what `search` returns: at most the store's size, and only stored documents that satisfy every supplied filter |
| `Db.ConditionsMeaning` | db.py:86-110 | all the contributed conditions hold iff the document satisfies every supplied filter |
| `Db.SearchIsFilter` | db.py:79-111 | the search result equals the store filtered by "satisfies every filter" |
| `Db.SearchResultExact` | db.py:79-111 | results satisfy all filters; every matching stored document is returned as often as stored; nothing else is; store order is kept |
| `Db.SearchWithoutFilters` | db.py:86-111 | with no filters the list is `[noop]` and the whole store comes back in order |
| `Db.SearchRangeBounds` | db.py:97-101 | with both bounds non-zero every result has an integer like_count with lo <= like_count <= hi |
| `Db.SearchLowerBoundOnly` | db.py:49-52 | with only the lower bound truthy, the results are exactly the stored documents with like_count >= lo |
| `Db.SearchZeroBoundsIgnored` | db.py:49-52 | like_count `(0, 0)` gives the same result as no like_count filter |
| `Db.SearchTagsAll` | db.py:104-106 | with mode "all" every result's tags contain every requested tag |
| `Db.SearchTagsAny` | db.py:107-108 | with mode "any" every result's tags share a requested tag |
| `Db.SearchOtherTagModeIgnored` | db.py:104-108 | a mode other than "all"/"any" gives the same result as no tags filter |
| `Db.PresencePartitionsStore` | db.py:29-34 | searching a field for presence and for absence splits the store: each document lands in exactly one result |
| `Db.SearchExampleRumi` | db.py:79-111 | two quotes by "Rumi" with 10 and 2 likes: author "Rumi" and like_count (5, None) returns only the first |
| `Db.Search` | db.py:79-111 | the step-by-step search returns the specified result: exactly the stored documents satisfying every filter |
| `Db.RandomChoice` | db.py:68-69 | an empty sequence is an error; otherwise the result is an element of the input |
| `Db.RandomChoiceReaches` | db.py:68-69 | every element can be drawn, and a one-element sequence always yields its element |
| `Db.GetRandomDoc` | db.py:72-76 | an empty store is an error; otherwise the drawn id in 1..length is found and names a stored document |
| `Db.GetRandomDocReaches` | db.py:72-76 | every stored document is returned for some id in 1..length |

## Left out

- `get_db` and the module-level store handle (db.py:9-14) open a JSON file. The store is a `seq<Doc>` parameter instead, and a document's id is its 1-based position.
- The query library's own `Query` objects are not modelled. The `Pred` datatype and `Eval` stand in for them.
- `random.choice` and `random.randint` draw uniformly. The model does not capture this probability. The drawn index or id is an argument; the model states its range and proves that every element is reachable.
- Ids are contiguous in the model by construction. A store with gaps in its ids (after a deletion) is not modelled. In such a store `db.get` could return `None` for a drawn id.
- Threshold bounds are typed `float` in db.py:37-46. The model uses `int`, since `like_count` is an integer.
- In Python, comparing a non-integer `like_count` with a bound raises `TypeError`; the model treats it as a non-match. Comparing a missing `like_count` fails in the model just as it does in the library.
- In Python a string is iterable, so a string-valued `tags` field is scanned too. With `all`, each requested tag must be a substring of that string. With `any`, some single character of the string must equal a requested tag. The model requires the field to be a list, and a field of any other type simply fails to match.
- The Python arguments may have shapes outside their annotations. The sum types admit only the annotated shapes. For `author` and `title`, a value that is neither a string nor a bool is skipped (db.py:87-96). So is a `like_count` that is neither a tuple nor a bool (db.py:97-103).
- Other malformed shapes raise an exception or misbehave in Python, and the model does not capture them:
  - `tags` has no type guard (db.py:104-108). A non-indexable `tags` raises `TypeError`. An empty tuple raises `IndexError` at `tags[0]`. A one-element tuple whose item is `"all"` or `"any"` raises `IndexError` at `tags[1]`; with any other item it adds no condition.
  - A `tags` list given as a plain string is scanned character by character. With `all`, each character of the string must be an element of the document's tag list. With `any`, some document tag must be a substring of the string, so a tag "wis" matches "wisdom".
  - A `like_count` tuple with fewer than two items raises `IndexError` (db.py:49, db.py:51). A non-numeric bound adds a comparison that raises `TypeError` when it is evaluated.
- `search_then_random` and the other routes in main.py belong to the HTTP layer: request parsing, the response model and `print`. They are not modelled. The tuples that main.py:40-43 builds are the `CountFilter` and `TagsFilter` arguments.
