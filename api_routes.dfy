/**
 * Pure and step-by-step helpers of the REST router: the parameterised list
 * query of `GET /repositories`, the sort-column and order-direction choice,
 * the decoding of stored embedding vectors, the network graph's fork edges and
 * the CSV export's cell quoting.
 */
module ApiRoutes {

  import opened Wrappers
  import opened Js
  import opened Text

  // ---------------------------------------------------------------- list query

  /**
   * The query-string fields of `GET /repositories`; `None` is a parameter
   * that is absent (`undefined`).
   */
  datatype ListRequest = ListRequest(
    category: Option<string>,
    language: Option<string>,
    isFork: Option<string>,
    sort: Option<string>,
    order: Option<string>,
    search: Option<string>,
    limit: Option<string>,
    offset: Option<string>)

  /**
   * One clause appended to the query text, with the `$n` placeholder numbers
   * it uses. `SearchMatches` stands for the three-way search condition, which
   * uses its one placeholder three times (name, description, topics).
   */
  datatype Clause =
    | CategoryIs(slot: nat)
    | LanguageIs(slot: nat)
    | ForkIs(slot: nat)
    | SearchMatches(slot: nat)
    | OrderBy(column: string, direction: string)
    | Page(limitSlot: nat, offsetSlot: nat)

  /** The distinct placeholder numbers of one clause, in the order they appear. */
  function Slots(c: Clause): seq<nat>
  {
    match c
    case CategoryIs(k) => [k]
    case LanguageIs(k) => [k]
    case ForkIs(k) => [k]
    case SearchMatches(k) => [k]
    case OrderBy(_, _) => []
    case Page(l, o) => [l, o]
  }

  /** The placeholder numbers of a clause list, in the order they appear. */
  function AllSlots(cs: seq<Clause>): seq<nat>
  {
    if cs == [] then [] else AllSlots(cs[..|cs| - 1]) + Slots(cs[|cs| - 1])
  }

  /** The numbers `lo, lo + 1, ..., hi - 1`. */
  function Range(lo: nat, hi: nat): (r: seq<nat>)
    requires lo <= hi
    ensures |r| == hi - lo
    ensures forall i :: 0 <= i < |r| ==> r[i] == lo + i
  {
    seq(hi - lo, i requires 0 <= i < hi - lo => lo + i)
  }

  /** Where a clause may appear: the filters in their fixed order, then ORDER BY, then LIMIT/OFFSET. */
  function Rank(c: Clause): nat
  {
    match c
    case CategoryIs(_) => 0
    case LanguageIs(_) => 1
    case ForkIs(_) => 2
    case SearchMatches(_) => 3
    case OrderBy(_, _) => 4
    case Page(_, _) => 5
  }

  ghost predicate HasRank(cs: seq<Clause>, rank: nat)
  {
    exists i :: 0 <= i < |cs| && Rank(cs[i]) == rank
  }

  /** The LIMIT parameter: the query string's text, or the number 100 when absent. */
  function LimitValue(limit: Option<string>): Value
  {
    if limit.Some? then Str(limit.value) else Number(Finite(100.0))
  }

  /** The OFFSET parameter: the query string's text, or the number 0 when absent. */
  function OffsetValue(offset: Option<string>): Value
  {
    if offset.Some? then Str(offset.value) else Number(Finite(0.0))
  }

  /** The value bound to placeholder `$k`. */
  function Bound(params: seq<Value>, k: nat): Option<Value>
  {
    if 1 <= k <= |params| then Some(params[k - 1]) else None
  }

  /** The clause's placeholders are bound to the request's own values. */
  ghost predicate Binds(c: Clause, params: seq<Value>, req: ListRequest)
  {
    match c
    case CategoryIs(k) => req.category.Some? && Bound(params, k) == Some(Str(req.category.value))
    case LanguageIs(k) => req.language.Some? && Bound(params, k) == Some(Str(req.language.value))
    case ForkIs(k) => req.isFork.Some? && Bound(params, k) == Some(Bool(req.isFork.value == "true"))
    case SearchMatches(k) =>
      req.search.Some? && Bound(params, k) == Some(Str("%" + req.search.value + "%"))
    case OrderBy(column, direction) =>
      column == SortColumn(req.sort) && direction == OrderDirectionAsWritten(req.order)
    case Page(l, o) =>
      Bound(params, l) == Some(LimitValue(req.limit)) && Bound(params, o) == Some(OffsetValue(req.offset))
  }

  lemma AllSlotsAppend(cs: seq<Clause>, c: Clause)
    ensures AllSlots(cs + [c]) == AllSlots(cs) + Slots(c)
  {
    assert (cs + [c])[..|cs|] == cs;
  }

  lemma RangeExtend(lo: nat, hi: nat, n: nat)
    requires lo <= hi
    ensures Range(lo, hi) + Range(hi, hi + n) == Range(lo, hi + n)
  {
  }

  /** Whether a clause of the given rank belongs in the query for this request. */
  predicate Wanted(req: ListRequest, rank: nat)
  {
    if rank == 0 then OptStrTruthy(req.category)
    else if rank == 1 then OptStrTruthy(req.language)
    else if rank == 2 then req.isFork.Some?
    else if rank == 3 then OptStrTruthy(req.search)
    else true
  }

  /**
   * The query built so far has decided every clause of rank below `upto`:
   * placeholders numbered consecutively from `$2`, each bound to the
   * request's value, clauses in rank order, and a clause present exactly
   * when it is wanted.
   */
  ghost predicate Built(cs: seq<Clause>, params: seq<Value>, req: ListRequest, upto: nat)
  {
    && |params| >= 1
    && AllSlots(cs) == Range(2, |params| + 1)
    && (forall i :: 0 <= i < |cs| ==> Binds(cs[i], params, req))
    && (forall i, j :: 0 <= i < j < |cs| ==> Rank(cs[i]) < Rank(cs[j]))
    && (forall i :: 0 <= i < |cs| ==> Rank(cs[i]) < upto)
    && (forall r: nat :: r < upto ==> (HasRank(cs, r) <==> Wanted(req, r)))
  }

  /** Appending the wanted clause of rank `upto`, with its values on the next placeholders. */
  lemma Add(cs: seq<Clause>, params: seq<Value>, req: ListRequest, upto: nat, c: Clause, vs: seq<Value>)
    requires Built(cs, params, req, upto)
    requires Rank(c) == upto && Wanted(req, upto)
    requires Slots(c) == Range(|params| + 1, |params| + 1 + |vs|)
    requires Binds(c, params + vs, req)
    ensures Built(cs + [c], params + vs, req, upto + 1)
  {
    AddSlots(cs, params, c, vs);
    AddBinds(cs, params, req, c, vs);
    AddRanks(cs, req, upto, c);
  }

  lemma AddSlots(cs: seq<Clause>, params: seq<Value>, c: Clause, vs: seq<Value>)
    requires |params| >= 1
    requires AllSlots(cs) == Range(2, |params| + 1)
    requires Slots(c) == Range(|params| + 1, |params| + 1 + |vs|)
    ensures AllSlots(cs + [c]) == Range(2, |params + vs| + 1)
  {
    AllSlotsAppend(cs, c);
    RangeExtend(2, |params| + 1, |vs|);
  }

  lemma AddBinds(cs: seq<Clause>, params: seq<Value>, req: ListRequest, c: Clause, vs: seq<Value>)
    requires forall i :: 0 <= i < |cs| ==> Binds(cs[i], params, req)
    requires Binds(c, params + vs, req)
    ensures forall i :: 0 <= i < |cs + [c]| ==> Binds((cs + [c])[i], params + vs, req)
  {
    forall i | 0 <= i < |cs|
      ensures Binds(cs[i], params + vs, req)
    {
      BindsExtend(cs[i], params, vs, req);
    }
  }

  lemma AddRanks(cs: seq<Clause>, req: ListRequest, upto: nat, c: Clause)
    requires forall i, j :: 0 <= i < j < |cs| ==> Rank(cs[i]) < Rank(cs[j])
    requires forall i :: 0 <= i < |cs| ==> Rank(cs[i]) < upto
    requires forall r: nat :: r < upto ==> (HasRank(cs, r) <==> Wanted(req, r))
    requires Rank(c) == upto && Wanted(req, upto)
    ensures forall i, j :: 0 <= i < j < |cs + [c]| ==> Rank((cs + [c])[i]) < Rank((cs + [c])[j])
    ensures forall i :: 0 <= i < |cs + [c]| ==> Rank((cs + [c])[i]) < upto + 1
    ensures forall r: nat :: r < upto + 1 ==> (HasRank(cs + [c], r) <==> Wanted(req, r))
  {
    assert Rank((cs + [c])[|cs|]) == upto;
    forall r: nat | r < upto + 1
      ensures HasRank(cs + [c], r) <==> Wanted(req, r)
    {
      if HasRank(cs, r) {
        var i :| 0 <= i < |cs| && Rank(cs[i]) == r;
        assert Rank((cs + [c])[i]) == r;
      }
    }
  }

  /** Deciding against the unwanted clause of rank `upto`. */
  lemma Skip(cs: seq<Clause>, params: seq<Value>, req: ListRequest, upto: nat)
    requires Built(cs, params, req, upto)
    requires !Wanted(req, upto)
    ensures Built(cs, params, req, upto + 1)
  {
  }

  /** The clause of a wanted rank with its first placeholder numbered `next`, and the values it binds. */
  function ClauseFor(req: ListRequest, rank: nat, next: nat): (r: (Clause, seq<Value>))
    requires rank < 6 && Wanted(req, rank)
    ensures Rank(r.0) == rank
    ensures Slots(r.0) == Range(next, next + |r.1|)
  {
    if rank == 0 then (CategoryIs(next), [Str(req.category.value)])
    else if rank == 1 then (LanguageIs(next), [Str(req.language.value)])
    else if rank == 2 then (ForkIs(next), [Bool(req.isFork.value == "true")])
    else if rank == 3 then (SearchMatches(next), [Str("%" + req.search.value + "%")])
    else if rank == 4 then (OrderBy(SortColumn(req.sort), OrderDirectionAsWritten(req.order)), [])
    else (Page(next, next + 1), [LimitValue(req.limit), OffsetValue(req.offset)])
  }

  lemma ClauseForBinds(req: ListRequest, rank: nat, params: seq<Value>)
    requires rank < 6 && Wanted(req, rank)
    ensures var (c, vs) := ClauseFor(req, rank, |params| + 1); Binds(c, params + vs, req)
  {
  }

  /** Decides the clause of rank `rank`: appends it, with its values on the next placeholders, exactly when it is wanted. */
  function Step(req: ListRequest, rank: nat, q: (seq<Clause>, seq<Value>)): (seq<Clause>, seq<Value>)
    requires rank < 6
  {
    if Wanted(req, rank) then
      var (c, vs) := ClauseFor(req, rank, |q.1| + 1);
      (q.0 + [c], q.1 + vs)
    else q
  }

  /** The query after the filters (category, language, fork, search); `$1` is the user id. */
  function FilterQuery(userId: int, req: ListRequest): (seq<Clause>, seq<Value>)
  {
    var q := ([], [Number(Finite(userId as real))]);
    Step(req, 3, Step(req, 2, Step(req, 1, Step(req, 0, q))))
  }

  /** The list query's clauses and parameters: the filters, then ORDER BY, then LIMIT/OFFSET. */
  function ListQuery(userId: int, req: ListRequest): (seq<Clause>, seq<Value>)
  {
    Step(req, 5, Step(req, 4, FilterQuery(userId, req)))
  }

  /** Each step keeps what was built, including `$1`, and decides one more rank. */
  lemma StepBuilt(req: ListRequest, rank: nat, q: (seq<Clause>, seq<Value>))
    requires rank < 6 && Built(q.0, q.1, req, rank)
    ensures Built(Step(req, rank, q).0, Step(req, rank, q).1, req, rank + 1)
    ensures |Step(req, rank, q).1| >= 1 && Step(req, rank, q).1[0] == q.1[0]
  {
    if Wanted(req, rank) {
      var (c, vs) := ClauseFor(req, rank, |q.1| + 1);
      ClauseForBinds(req, rank, q.1);
      Add(q.0, q.1, req, rank, c, vs);
    } else {
      Skip(q.0, q.1, req, rank);
    }
  }

  /** The filters decide ranks 0 to 3 and keep `$1` bound to the user id. */
  lemma FilterQueryBuilt(userId: int, req: ListRequest)
    ensures var (clauses, params) := FilterQuery(userId, req);
      Built(clauses, params, req, 4) && params[0] == Number(Finite(userId as real))
  {
    var q0: (seq<Clause>, seq<Value>) := ([], [Number(Finite(userId as real))]);
    assert Built(q0.0, q0.1, req, 0);
    var q1 := Step(req, 0, q0);
    StepBuilt(req, 0, q0);
    var q2 := Step(req, 1, q1);
    StepBuilt(req, 1, q1);
    var q3 := Step(req, 2, q2);
    StepBuilt(req, 2, q2);
    StepBuilt(req, 3, q3);
  }

  /** Sorting and paging decide ranks 4 and 5, so the whole query is built. */
  lemma ListQueryBuilt(userId: int, req: ListRequest)
    ensures var (clauses, params) := ListQuery(userId, req);
      Built(clauses, params, req, 6) && params[0] == Number(Finite(userId as real))
  {
    var q4 := FilterQuery(userId, req);
    FilterQueryBuilt(userId, req);
    var q5 := Step(req, 4, q4);
    StepBuilt(req, 4, q4);
    StepBuilt(req, 5, q5);
  }

  /**
   * The list query binds `$1` to the user id; each present filter takes the
   * next placeholder number, and LIMIT/OFFSET take the two after that, so the
   * placeholders are exactly `$1..$|params|` and each is bound to the
   * request's value for it. Filters appear in the order category, language,
   * fork, search, each present exactly when its parameter is truthy (for
   * `is_fork`: given), followed by ORDER BY and LIMIT/OFFSET.
   */
  lemma ListQueryNumbering(userId: int, req: ListRequest)
    ensures var (clauses, params) := ListQuery(userId, req);
      && |params| >= 3 && params[0] == Number(Finite(userId as real))
      && AllSlots(clauses) == Range(2, |params| + 1)
      && (forall i :: 0 <= i < |clauses| ==> Binds(clauses[i], params, req))
      && (forall i, j :: 0 <= i < j < |clauses| ==> Rank(clauses[i]) < Rank(clauses[j]))
      && (HasRank(clauses, 0) <==> OptStrTruthy(req.category))
      && (HasRank(clauses, 1) <==> OptStrTruthy(req.language))
      && (HasRank(clauses, 2) <==> req.isFork.Some?)
      && (HasRank(clauses, 3) <==> OptStrTruthy(req.search))
      && HasRank(clauses, 4) && HasRank(clauses, 5)
  {
    ListQueryBuilt(userId, req);
    var (clauses, params) := ListQuery(userId, req);
    assert Wanted(req, 4) && Wanted(req, 5);
    assert |AllSlots(clauses)| == |params| - 1;
    assert |AllSlots(clauses)| >= 2 by {
      var i :| 0 <= i < |clauses| && Rank(clauses[i]) == 5;
      AllSlotsContains(clauses, i);
    }
  }

  /**
   * The query carries the router's ORDER BY: the sort column, then the
   * `order` text upper-cased and unchecked, so `OrderInjection`'s text
   * reaches the query.
   */
  lemma ListQueryOrder(userId: int, req: ListRequest)
    ensures var clauses := ListQuery(userId, req).0;
      exists i :: 0 <= i < |clauses| && clauses[i] == OrderBy(SortColumn(req.sort), OrderDirectionAsWritten(req.order))
  {
    ListQueryNumbering(userId, req);
    var (clauses, params) := ListQuery(userId, req);
    var i :| 0 <= i < |clauses| && Rank(clauses[i]) == 4;
    assert Binds(clauses[i], params, req);
  }

  /** Every clause's slots are among the slots of the list. */
  lemma {:induction false} AllSlotsContains(cs: seq<Clause>, i: nat)
    requires i < |cs|
    ensures |AllSlots(cs)| >= |Slots(cs[i])|
  {
    if i < |cs| - 1 {
      AllSlotsContains(cs[..|cs| - 1], i);
    }
  }

  /**
   * Builds the list query the way the router does: the filters, then the
   * ORDER BY clause with the `order` text as written (upper-cased, not
   * checked) and the LIMIT/OFFSET placeholders on the next two
   * numbers. The result is `ListQuery`, whose numbering `ListQueryNumbering`
   * states.
   */
  method BuildListQuery(userId: int, req: ListRequest) returns (clauses: seq<Clause>, params: seq<Value>)
    ensures (clauses, params) == ListQuery(userId, req)
  {
    var paramIndex;
    clauses, params, paramIndex := ApplyFilters(userId, req);
    ghost var q := (clauses, params);
    clauses := clauses + [OrderBy(SortColumn(req.sort), OrderDirectionAsWritten(req.order))];
    assert params + [] == params;
    assert (clauses, params) == Step(req, 4, q);
    q := (clauses, params);
    clauses := clauses + [Page(paramIndex, paramIndex + 1)];
    params := params + [LimitValue(req.limit), OffsetValue(req.offset)];
    assert (clauses, params) == Step(req, 5, q);
  }

  /**
   * The router's filter section: each present filter appends its clause on
   * placeholder `paramIndex`, binds its value and advances the counter.
   */
  method ApplyFilters(userId: int, req: ListRequest) returns (clauses: seq<Clause>, params: seq<Value>, paramIndex: nat)
    ensures (clauses, params) == FilterQuery(userId, req)
    ensures paramIndex == |params| + 1
  {
    clauses := [];
    params := [Number(Finite(userId as real))];
    ghost var q := (clauses, params);
    paramIndex := 2;
    if OptStrTruthy(req.category) {
      clauses := clauses + [CategoryIs(paramIndex)];
      params := params + [Str(req.category.value)];
      paramIndex := paramIndex + 1;
    }
    assert (clauses, params) == Step(req, 0, q);
    q := (clauses, params);
    if OptStrTruthy(req.language) {
      clauses := clauses + [LanguageIs(paramIndex)];
      params := params + [Str(req.language.value)];
      paramIndex := paramIndex + 1;
    }
    assert (clauses, params) == Step(req, 1, q);
    q := (clauses, params);
    if req.isFork.Some? {
      clauses := clauses + [ForkIs(paramIndex)];
      params := params + [Bool(req.isFork.value == "true")];
      paramIndex := paramIndex + 1;
    }
    assert (clauses, params) == Step(req, 2, q);
    q := (clauses, params);
    if OptStrTruthy(req.search) {
      clauses := clauses + [SearchMatches(paramIndex)];
      params := params + [Str("%" + req.search.value + "%")];
      paramIndex := paramIndex + 1;
    }
    assert (clauses, params) == Step(req, 3, q);
  }

  lemma BindsExtend(c: Clause, params: seq<Value>, vs: seq<Value>, req: ListRequest)
    requires Binds(c, params, req)
    ensures Binds(c, params + vs, req)
  {
  }

  // ---------------------------------------------------------------- sorting

  /** The sort keys the router knows and the columns they select. */
  const SortKeys: seq<string> := ["name", "stars", "updated", "created", "vibe"]
  const SortColumns: seq<string> := ["r.name", "r.stars", "r.updated_at", "r.created_at", "rc.vibe_score"]

  /**
   * The ORDER BY column for the `sort` parameter (default `updated`): a known
   * key selects its column, any other key falls back to `r.updated_at`.
   */
  function SortColumn(sort: Option<string>): (r: string)
    ensures r in SortColumns
    ensures forall k :: 0 <= k < |SortKeys| && sort == Some(SortKeys[k]) ==> r == SortColumns[k]
    ensures sort.Some? && sort.value !in SortKeys ==> r == "r.updated_at"
  {
    var key := if sort.Some? then sort.value else "updated";
    if key == "name" then "r.name"
    else if key == "stars" then "r.stars"
    else if key == "updated" then "r.updated_at"
    else if key == "created" then "r.created_at"
    else if key == "vibe" then "rc.vibe_score"
    else "r.updated_at"
  }

  /**
   * The ORDER BY direction as the router writes it: the `order` parameter
   * (default `desc`) upper-cased and spliced into the query text unchecked.
   */
  function OrderDirectionAsWritten(order: Option<string>): (r: string)
    ensures var text := if order.Some? then order.value else "desc";
      |r| == |text| && Lower(r) == Lower(text)
  {
    var text := if order.Some? then order.value else "desc";
    LowerForgetsCase(text);
    Upper(text)
  }

  /**
   * Whatever text the client sends as `order` reaches the query verbatim up
   * to letter case, so any `order` longer than four characters puts text
   * other than ASC or DESC into the ORDER BY clause.
   */
  lemma OrderTextReachesQuery(order: string)
    ensures |OrderDirectionAsWritten(Some(order))| == |order|
    ensures Lower(OrderDirectionAsWritten(Some(order))) == Lower(order)
    ensures |order| > 4 ==> OrderDirectionAsWritten(Some(order)) != "ASC"
    ensures |order| > 4 ==> OrderDirectionAsWritten(Some(order)) != "DESC"
  {
    LowerForgetsCase(order);
  }

  /** A concrete `order` parameter that places a subquery into the ORDER BY clause. */
  lemma OrderInjection()
    ensures OrderDirectionAsWritten(Some("asc,(select 1)")) == "ASC,(SELECT 1)"
  {
    var s := "asc,(select 1)";
    assert Upper(s) == "ASC,(SELECT 1)";
  }

  /** The evidently intended direction: ASC when asked for (in any case), DESC otherwise. */
  function OrderDirection(order: Option<string>): (r: string)
    ensures r == "ASC" || r == "DESC"
  {
    if order.Some? && Upper(order.value) == "ASC" then "ASC" else "DESC"
  }

  /** The whitelisted direction agrees with the router on every request the router handles as meant. */
  lemma OrderDirectionAgrees(order: Option<string>)
    ensures OrderDirectionAsWritten(order) == "ASC" ==> OrderDirection(order) == "ASC"
    ensures OrderDirectionAsWritten(order) == "DESC" ==> OrderDirection(order) == "DESC"
    ensures order.None? ==> OrderDirection(order) == OrderDirectionAsWritten(order)
  {
    if order.None? {
      assert Upper("desc") == "DESC";
    }
  }

  // ---------------------------------------------------------------- embedding vectors

  /** An `embedding_vector` column value as the database driver hands it over. */
  datatype Stored = StoredArray(items: seq<Value>) | StoredValue(v: Value)

  /** The outcome of `JSON.parse` on a text. */
  datatype Parsed = ParsedArray(items: seq<Value>) | ParsedOther | Malformed

  function NumbersOf(items: seq<Value>, ofString: string -> Num): (r: seq<Num>)
    ensures |r| == |items|
    ensures forall i :: 0 <= i < |items| ==> r[i] == ToNumber(items[i], ofString)
  {
    seq(|items|, i requires 0 <= i < |items| => ToNumber(items[i], ofString))
  }

  /** A non-empty text whose JSON parse is an array. */
  predicate ParsesToArray(v: Value, parseJson: string -> Parsed)
  {
    v.Str? && v.s != "" && parseJson(v.s).ParsedArray?
  }

  /**
   * Decodes a stored vector: an array has every element converted with
   * `Number`; a non-empty text is parsed as JSON (the parser is the parameter
   * `parseJson`) and decoded when it is an array; everything else, including
   * falsy values, malformed text and non-array JSON, gives `null` (`None`).
   * A non-string value is parsed through its string form, which is never a
   * JSON array, so it also gives `null`.
   */
  function ParseEmbeddingVector(stored: Stored, parseJson: string -> Parsed, ofString: string -> Num): (r: Option<seq<Num>>)
    ensures stored.StoredArray? ==> r == Some(NumbersOf(stored.items, ofString))
    ensures stored.StoredValue? && ParsesToArray(stored.v, parseJson) ==>
              r == Some(NumbersOf(parseJson(stored.v.s).items, ofString))
    ensures stored.StoredValue? && !ParsesToArray(stored.v, parseJson) ==> r.None?
  {
    match stored
    case StoredArray(items) => Some(NumbersOf(items, ofString))
    case StoredValue(v) =>
      if !Truthy(v) then None
      else if v.Str? then
        match parseJson(v.s)
        case ParsedArray(items) => Some(NumbersOf(items, ofString))
        case _ => None
      else None
  }

  // ---------------------------------------------------------------- network graph

  /** The columns of a repository row that the network graph uses. */
  datatype NetworkRepo = NetworkRepo(id: int, fullName: string, isFork: bool, parentRepo: Option<string>)

  /** An edge of the network graph. */
  datatype Edge = Edge(sourceId: int, targetId: int, kind: string, strength: real)

  /** `rows.find(p => p.full_name === name)`, as the index of the first match. */
  function FindByFullName(rows: seq<NetworkRepo>, name: string): (r: Option<nat>)
    ensures r.Some? ==> r.value < |rows| && rows[r.value].fullName == name
    ensures r.Some? ==> forall j :: 0 <= j < r.value ==> rows[j].fullName != name
    ensures r.None? ==> forall j :: 0 <= j < |rows| ==> rows[j].fullName != name
  {
    if rows == [] then None
    else if rows[0].fullName == name then Some(0)
    else match FindByFullName(rows[1..], name)
      case None => None
      case Some(i) => Some(i + 1)
  }

  /** A fork whose parent is listed among `all`. */
  predicate Linked(r: NetworkRepo, all: seq<NetworkRepo>)
  {
    r.isFork && OptStrTruthy(r.parentRepo) && FindByFullName(all, r.parentRepo.value).Some?
  }

  /** The edge from a linked fork's first listed parent to the fork. */
  function ForkEdge(r: NetworkRepo, all: seq<NetworkRepo>): (e: Edge)
    requires Linked(r, all)
    ensures e.targetId == r.id && e.kind == "fork" && e.strength == 1.0
    ensures exists p :: p in all && p.fullName == r.parentRepo.value && e.sourceId == p.id
  {
    var p := all[FindByFullName(all, r.parentRepo.value).value];
    Edge(p.id, r.id, "fork", 1.0)
  }

  /**
   * The fork edges of `rows`, looking parents up in `all`: one edge per
   * linked fork, in row order; unlinked forks and non-forks give nothing.
   */
  function ForkEdges(rows: seq<NetworkRepo>, all: seq<NetworkRepo>): (r: seq<Edge>)
    ensures |r| <= |rows|
    ensures forall i :: 0 <= i < |rows| && Linked(rows[i], all) ==> ForkEdge(rows[i], all) in r
    ensures forall e :: e in r ==> exists i :: 0 <= i < |rows| && Linked(rows[i], all) && e == ForkEdge(rows[i], all)
  {
    if rows == [] then []
    else
      var rest := ForkEdges(rows[1..], all);
      assert forall i :: 1 <= i < |rows| ==> rows[i] == rows[1..][i - 1];
      if Linked(rows[0], all) then [ForkEdge(rows[0], all)] + rest else rest
  }

  /**
   * The fork edges of two runs of rows are those of the first run followed
   * by those of the second: edges keep the order of their rows.
   */
  lemma {:induction false} ForkEdgesConcat(a: seq<NetworkRepo>, b: seq<NetworkRepo>, all: seq<NetworkRepo>)
    ensures ForkEdges(a + b, all) == ForkEdges(a, all) + ForkEdges(b, all)
  {
    if a == [] {
      assert a + b == b;
    } else {
      var ab := a + b;
      assert ab[1..] == a[1..] + b && ab[0] == a[0];
      var head := if Linked(a[0], all) then [ForkEdge(a[0], all)] else [];
      ForkEdgesUnfold(ab, all);
      ForkEdgesUnfold(a, all);
      ForkEdgesConcat(a[1..], b, all);
      Regroup(head, ForkEdges(a[1..], all), ForkEdges(b, all));
    }
  }

  lemma Regroup<T>(head: seq<T>, tail: seq<T>, rest: seq<T>)
    ensures head + (tail + rest) == (head + tail) + rest
  {
  }

  lemma ForkEdgesUnfold(rows: seq<NetworkRepo>, all: seq<NetworkRepo>)
    requires rows != []
    ensures ForkEdges(rows, all)
         == (if Linked(rows[0], all) then [ForkEdge(rows[0], all)] else []) + ForkEdges(rows[1..], all)
  {
  }

  /** One more row adds exactly its own edge when it is a linked fork, and nothing otherwise. */
  lemma ForkEdgesAppend(rows: seq<NetworkRepo>, x: NetworkRepo, all: seq<NetworkRepo>)
    ensures ForkEdges(rows + [x], all)
         == ForkEdges(rows, all) + (if Linked(x, all) then [ForkEdge(x, all)] else [])
  {
    ForkEdgesConcat(rows, [x], all);
    assert [x][1..] == [];
  }

  /** The graph's edges: the stored relationships, then the fork edges of the listed repositories. */
  function NetworkEdges(relationships: seq<Edge>, rows: seq<NetworkRepo>): (r: seq<Edge>)
    ensures |r| >= |relationships| && r[..|relationships|] == relationships
    ensures forall e :: e in r[|relationships|..] ==> e.kind == "fork" && e.strength == 1.0
    ensures forall i :: 0 <= i < |rows| && Linked(rows[i], rows) ==> ForkEdge(rows[i], rows) in r
  {
    var forks := ForkEdges(rows, rows);
    assert (relationships + forks)[|relationships|..] == forks;
    relationships + forks
  }

  /** A fork listed without its parent, or whose parent is not listed, yields no edge. */
  lemma UnlinkedForkHasNoEdge(rows: seq<NetworkRepo>, i: nat)
    requires i < |rows| && rows[i].isFork && rows[i].parentRepo.Some?
    requires forall j :: 0 <= j < |rows| ==> rows[j].fullName != rows[i].parentRepo.value
    ensures forall e :: e in ForkEdges(rows, rows) ==> e.targetId != rows[i].id || exists k :: 0 <= k < |rows| && k != i && rows[k].id == rows[i].id
  {
    forall e | e in ForkEdges(rows, rows) && e.targetId == rows[i].id
      ensures exists k :: 0 <= k < |rows| && k != i && rows[k].id == rows[i].id
    {
      var k :| 0 <= k < |rows| && Linked(rows[k], rows) && e == ForkEdge(rows[k], rows);
      assert k != i;
    }
  }

  // ---------------------------------------------------------------- CSV export

  /** A result row: its columns in order, each with its value. */
  type Row = seq<(string, Value)>

  function Keys(row: Row): (r: seq<string>)
    ensures |r| == |row|
  {
    seq(|row|, i requires 0 <= i < |row| => row[i].0)
  }

  /** `row[h]`: the value of the first column named `h`, `undefined` when there is none. */
  function Lookup(row: Row, h: string): Value
  {
    if row == [] then Undefined
    else if row[0].0 == h then row[0].1
    else Lookup(row[1..], h)
  }

  /** The header: the first row's column names, none when there is no row. */
  function Headers(rows: seq<Row>): seq<string>
  {
    if rows == [] then [] else Keys(rows[0])
  }

  /**
   * How a cell is written: a string containing a comma is wrapped in double
   * quotes with each `"` doubled; every other value as `join(',')` writes it.
   */
  function ExportCell(v: Value, show: Value -> string): (r: string)
    ensures v.Str? && Includes(v.s, ",") ==> r == Quoted(v.s, '"')
    ensures v.Str? && !Includes(v.s, ",") ==> r == v.s
    ensures v.Undefined? || v.Null? ==> r == ""
  {
    if v.Str? && Includes(v.s, ",") then Quoted(v.s, '"') else JoinText(v, show)
  }

  /** The cells of the export: the header, then each row's values under the header's columns. */
  function ExportCells(rows: seq<Row>, show: Value -> string): (r: seq<seq<string>>)
    ensures |r| == |rows| + 1 && r[0] == Headers(rows)
    ensures forall i :: 0 < i < |r| ==> |r[i]| == |Headers(rows)|
    ensures forall i, j :: 0 < i < |r| && 0 <= j < |Headers(rows)| ==>
              r[i][j] == ExportCell(Lookup(rows[i - 1], Headers(rows)[j]), show)
  {
    var headers := Headers(rows);
    [headers] + seq(|rows|, i requires 0 <= i < |rows| =>
      seq(|headers|, j requires 0 <= j < |headers| => ExportCell(Lookup(rows[i], headers[j]), show)))
  }

  function JoinLines(cells: seq<seq<string>>): string
  {
    Join(seq(|cells|, i requires 0 <= i < |cells| => Join(cells[i], ",")), "\n")
  }

  /** The exported text: the lines of `ExportCells`, cells joined by commas, lines by newlines. */
  function ExportCsv(rows: seq<Row>, show: Value -> string): (r: string)
    ensures var header := Join(Headers(rows), ",");
      && |r| >= |header| && r[..|header|] == header
      && (rows != [] ==> |r| > |header| && r[|header|] == '\n')
  {
    var cells := ExportCells(rows, show);
    var lines := seq(|cells|, i requires 0 <= i < |cells| => Join(cells[i], ","));
    JoinStartsWithFirst(lines, "\n");
    JoinLines(cells)
  }

  /** With no rows the export is empty: there is not even a header line. */
  lemma EmptyExport(show: Value -> string)
    ensures ExportCsv([], show) == ""
  {
    var cells := ExportCells([], show);
    assert cells == [[]];
    assert seq(|cells|, i requires 0 <= i < |cells| => Join(cells[i], ",")) == [""];
  }

  /**
   * A string cell with a comma reads back as the string: strip the quotes and
   * un-double the rest; no lone quote inside can end the field early.
   */
  lemma QuotedCellRoundTrip(s: string, show: Value -> string)
    requires Includes(s, ",")
    ensures var c := ExportCell(Str(s), show);
      && |c| >= 2 && c[0] == '"' && c[|c| - 1] == '"'
      && Undouble(c[1..|c| - 1], '"') == s && Paired(c[1..|c| - 1], '"')
  {
    QuotedRoundTrip(s, '"');
  }
}
