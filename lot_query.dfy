/**
 * The filter that the lot listing endpoints hand to the database, and the
 * pagination arithmetic of `GET /lots` (lots/routes.js).
 *
 * A query is the JSON object `q` of the route handler: field name to
 * condition. `Matches` gives the conditions the handler itself writes
 * (equality, `$in`, `$or`) their database meaning, so that the visibility
 * rules can be stated about the lots a query selects; any other condition a
 * caller puts into `filters` is decided by the database, passed in as `other`.
 */
module LotQuery {
  import opened Wrappers
  import opened Ids
  import J = Json

  type Query = map<string, J.Value>

  /**
   * What `filters` contributes before the visibility rules run:
   * no (or an empty) parameter, text that `JSON.parse` rejected, or the
   * own enumerable members of the parsed value that `Object.assign` copies.
   */
  datatype Filters = NoFilters | Malformed | Parsed(fields: map<string, J.Value>)

  /** The parts of a listing request that `lotsQuery` reads. */
  datatype ListRequest = ListRequest(
    filters: Filters,
    draft: Option<string>,   // `req.query.draft`
    user: Option<UserId>)    // `req.user._id`, None for an anonymous caller

  const LiveStateNames: seq<string> := ["future", "open", "live"]

  /** `{$in: ['future', 'open', 'live']}` */
  const LiveStates: J.Value := J.Single("$in", J.Strings(LiveStateNames))

  /** A query-string parameter is truthy when present and non-empty. */
  predicate Truthy(p: Option<string>) {
    p.Some? && p.value != ""
  }

  /** `[{draft: false}, {createdBy: user}]` */
  function PublishedOrOwn(user: UserId): J.Value {
    J.Arr([J.Single("draft", J.Bool(false)), J.Single("createdBy", J.Str(user))])
  }

  /** The members the parsed `filters` parameter puts into an empty query. */
  function FilterFields(f: Filters): Query {
    if f.Parsed? then f.fields else map[]
  }

  /** The draft-visibility restriction for a caller (not used for `draft=all`). */
  function Visibility(req: ListRequest): Query {
    match req.user
    case None => map["draft" := J.Bool(false)]
    case Some(id) =>
      if Truthy(req.draft) then map["draft" := J.Bool(true), "createdBy" := J.Str(id)]
      else map["$or" := PublishedOrOwn(id)]
  }

  /**
   * The listing filter as a whole: the caller's filters, overridden by the
   * visibility restriction and the live-state restriction, unless the caller
   * asked for `draft=all`.
   */
  function ListingQuery(req: ListRequest): Query {
    if req.draft == Some("all") then FilterFields(req.filters)
    else FilterFields(req.filters) + Visibility(req) + map["state" := LiveStates]
  }

  /** `lotsQuery`: builds the filter step by step, as the handler does. */
  method LotsQuery(req: ListRequest) returns (q: Query)
    ensures q == ListingQuery(req)
  {
    q := map[];
    if req.filters.Parsed? {
      q := q + req.filters.fields;
    }
    if req.draft == Some("all") {
      return;
    } else if req.user.Some? {
      if Truthy(req.draft) {
        q := q["draft" := J.Bool(true)];
        q := q["createdBy" := J.Str(req.user.value)];
      } else {
        q := q["$or" := PublishedOrOwn(req.user.value)];
      }
    } else {
      q := q["draft" := J.Bool(false)];
    }
    q := q["state" := LiveStates];
  }

  /**
   * `GET /auctions/:auctionId/lots`: the listing filter scoped to one
   * auction; the path's auction wins over any `auction` in `filters`.
   */
  function AuctionLotsQuery(req: ListRequest, auction: string): (q: Query)
    ensures q.Keys == ListingQuery(req).Keys + {"auction"}
    ensures q["auction"] == J.Str(auction)
    ensures forall k :: k in ListingQuery(req) && k != "auction" ==> q[k] == ListingQuery(req)[k]
  {
    ListingQuery(req)["auction" := J.Str(auction)]
  }

  /**
   * `GET /auctions/:auctionId/results`: scoped to one auction, closed lots
   * only; `closed` replaces the live states of the listing.
   */
  function ResultsQuery(req: ListRequest, auction: string): (q: Query)
    ensures q.Keys == ListingQuery(req).Keys + {"auction", "state"}
    ensures q["auction"] == J.Str(auction) && q["state"] == J.Str("closed")
    ensures forall k :: k in ListingQuery(req) && k != "auction" && k != "state" ==> q[k] == ListingQuery(req)[k]
  {
    AuctionLotsQuery(req, auction)["state" := J.Str("closed")]
  }

  // ---------------------------------------------------------------------
  // What a query selects

  type Doc = map<string, J.Value>

  /** A condition object `{$in: [...]}`. */
  predicate IsIn(cond: J.Value) {
    cond.Obj? && cond.fields.Keys == {"$in"} && cond.fields["$in"].Arr?
  }

  /** Whether the lot document `doc` satisfies `cond` on `field`. */
  predicate FieldMatches(doc: Doc, field: string, cond: J.Value,
                         other: (Doc, string, J.Value) -> bool)
  {
    if IsIn(cond) then field in doc && doc[field] in cond.fields["$in"].items
    else if cond.Obj? || cond.Arr? then other(doc, field, cond)
    else field in doc && doc[field] == cond
  }

  /**
   * Whether `doc` is selected by the query `q`: every member is a conjunct,
   * and `$or` holds when one of its clauses (each a query) is satisfied.
   */
  predicate Matches(doc: Doc, q: Query, other: (Doc, string, J.Value) -> bool)
    decreases J.Obj(q)
  {
    forall k :: k in q ==>
      if k == "$or" then
        && q[k].Arr?
        && exists i :: 0 <= i < |q[k].items| && q[k].items[i].Obj? && Matches(doc, q[k].items[i].fields, other)
      else FieldMatches(doc, k, q[k], other)
  }

  // ---------------------------------------------------------------------
  // Properties of the listing filter

  /** `draft=all` adds nothing to the caller's filters. */
  lemma DraftAllIsFiltersOnly(req: ListRequest)
    requires req.draft == Some("all")
    ensures ListingQuery(req) == FilterFields(req.filters)
    ensures req.filters.NoFilters? || req.filters.Malformed? ==> ListingQuery(req) == map[]
  {
  }

  /** An anonymous caller gets `draft = false` and the live states, whatever `filters` says. */
  lemma AnonymousQuery(req: ListRequest)
    requires req.user.None? && req.draft != Some("all")
    ensures var q := ListingQuery(req);
      && q["draft"] == J.Bool(false)
      && q["state"] == LiveStates
      && q.Keys == FilterFields(req.filters).Keys + {"draft", "state"}
  {
  }

  /** An authenticated caller that sends `draft` sees only their own drafts. */
  lemma OwnDraftsQuery(req: ListRequest)
    requires req.user.Some? && req.draft != Some("all") && Truthy(req.draft)
    ensures var q := ListingQuery(req);
      && q["draft"] == J.Bool(true)
      && q["createdBy"] == J.Str(req.user.value)
      && q["state"] == LiveStates
  {
  }

  /** Without `draft`, an authenticated caller sees published lots or their own. */
  lemma PublishedOrOwnQuery(req: ListRequest)
    requires req.user.Some? && !Truthy(req.draft)
    ensures var q := ListingQuery(req);
      && q["$or"] == PublishedOrOwn(req.user.value)
      && q["state"] == LiveStates
  {
  }

  /** A `filters` text that does not parse is the same as no `filters` at all. */
  lemma MalformedFiltersIgnored(req: ListRequest)
    requires req.filters.Malformed?
    ensures ListingQuery(req) == ListingQuery(req.(filters := NoFilters))
  {
  }

  /** Every lot an anonymous listing selects is published and in a live state. */
  lemma {:induction false} AnonymousSeesPublishedLive(req: ListRequest, doc: Doc,
                                                     other: (Doc, string, J.Value) -> bool)
    requires req.user.None? && req.draft != Some("all")
    requires Matches(doc, ListingQuery(req), other)
    ensures "draft" in doc && doc["draft"] == J.Bool(false)
    ensures "state" in doc && doc["state"] in J.Strings(LiveStateNames).items
  {
    var q := ListingQuery(req);
    assert q["draft"] == J.Bool(false);
    assert FieldMatches(doc, "draft", q["draft"], other);
    assert IsIn(q["state"]);
    assert FieldMatches(doc, "state", q["state"], other);
  }

  /** Every lot an authenticated draft-only listing selects is the caller's own draft. */
  lemma {:induction false} OwnDraftsSelected(req: ListRequest, doc: Doc,
                                             other: (Doc, string, J.Value) -> bool)
    requires req.user.Some? && req.draft != Some("all") && Truthy(req.draft)
    requires Matches(doc, ListingQuery(req), other)
    ensures "draft" in doc && doc["draft"] == J.Bool(true)
    ensures "createdBy" in doc && doc["createdBy"] == J.Str(req.user.value)
  {
    var q := ListingQuery(req);
    assert FieldMatches(doc, "draft", q["draft"], other);
    assert FieldMatches(doc, "createdBy", q["createdBy"], other);
  }

  /**
   * Every lot an authenticated listing without `draft` selects is either
   * published or created by the caller.
   */
  lemma {:induction false} PublishedOrOwnSelected(req: ListRequest, doc: Doc,
                                                  other: (Doc, string, J.Value) -> bool)
    requires req.user.Some? && !Truthy(req.draft)
    requires Matches(doc, ListingQuery(req), other)
    ensures ("draft" in doc && doc["draft"] == J.Bool(false))
         || ("createdBy" in doc && doc["createdBy"] == J.Str(req.user.value))
  {
    var q := ListingQuery(req);
    var clauses := PublishedOrOwn(req.user.value).items;
    assert q["$or"].items == clauses;
    var i :| 0 <= i < |clauses| && clauses[i].Obj? && Matches(doc, clauses[i].fields, other);
    if i == 0 {
      assert FieldMatches(doc, "draft", clauses[0].fields["draft"], other);
    } else {
      assert FieldMatches(doc, "createdBy", clauses[1].fields["createdBy"], other);
    }
  }

  /** Every lot a results listing selects is a closed lot of that auction. */
  lemma {:induction false} ResultsAreClosed(req: ListRequest, auction: string, doc: Doc,
                                            other: (Doc, string, J.Value) -> bool)
    requires Matches(doc, ResultsQuery(req, auction), other)
    ensures "state" in doc && doc["state"] == J.Str("closed")
    ensures "auction" in doc && doc["auction"] == J.Str(auction)
  {
    var q := ResultsQuery(req, auction);
    assert FieldMatches(doc, "state", q["state"], other);
    assert FieldMatches(doc, "auction", q["auction"], other);
  }

  // ---------------------------------------------------------------------
  // Pagination of `GET /lots`

  /** `(page - 1) * limit`: how many matching lots come before page `page`. */
  function PageStart(page: nat, limit: nat): (start: nat)
    requires page >= 1
    ensures limit > 0 ==> start % limit == 0 && start / limit == page - 1
  {
    DivMulExact(page - 1, limit);
    (page - 1) * limit
  }

  /**
   * `Math.ceil((count || 1) / limit)`: the number of pages, counting an empty
   * result as one page.
   */
  function TotalPages(count: nat, limit: nat): (pages: nat)
    requires limit > 0
    ensures pages >= 1
    ensures (pages - 1) * limit < (if count == 0 then 1 else count) <= pages * limit
  {
    var c := if count == 0 then 1 else count;
    var pages := (c + limit - 1) / limit;
    DivBounds(c + limit - 1, limit);
    pages
  }

  /** A multiple of `d` divides exactly. */
  lemma DivMulExact(q: nat, d: nat)
    ensures d > 0 ==> q * d % d == 0 && q * d / d == q
  {
    if d > 0 {
      var x := q * d;
      DivBounds(x, d);
      var k := x / d;
      MulMono(k, q, d);
      MulMono(q, k, d);
      MulMono(q + 1, k, d);
      MulMono(k + 1, q, d);
      assert (q + 1) * d == x + d && (k + 1) * d == k * d + d;
    }
  }

  /** `n / d` is the quotient of Euclidean division (a helper for the arithmetic above). */
  lemma DivBounds(n: nat, d: nat)
    requires d > 0
    ensures (n / d) * d <= n < (n / d) * d + d
  {
  }

  /**
   * The pages partition the result: the `i`-th matching lot (0-based) lies on
   * page `i / limit + 1`, and that page exists.
   */
  lemma {:induction false} PageOfIndex(count: nat, limit: nat, i: nat)
    requires limit > 0 && i < count
    ensures var page := i / limit + 1;
      && page <= TotalPages(count, limit)
      && PageStart(page, limit) <= i < PageStart(page, limit) + limit
  {
    var page := i / limit + 1;
    DivBounds(i, limit);
    var pages := TotalPages(count, limit);
    assert (page - 1) * limit <= i < count <= pages * limit;
    MulMono(pages, page - 1, limit);
  }

  /** Multiplying by a natural number preserves `<=` (a helper for the arithmetic above). */
  lemma MulMono(a: nat, b: nat, c: nat)
    ensures a <= b ==> a * c <= b * c
  {
  }
}
