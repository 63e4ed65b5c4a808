/**
 * The hand-rolled REST client over the hosted table API (src/simple_supabase.py).
 * The HTTP exchange itself is not modelled: each call receives the server's
 * response as a parameter and returns the request it would have sent.
 */
module Rest {
  import opened Wrappers
  import opened Text

  /** A filter dict, in insertion order: column name and the already-rendered value. */
  type Filters = seq<(string, string)>

  /** A query parameter as `requests` receives it: text, or the integer limit. */
  datatype ParamValue = Str(s: string) | Int(n: int)

  datatype Verb = Get | Post | Patch

  /** The request the client sends; the JSON payload of insert and update is forwarded as given. */
  datatype Request = Request(verb: Verb, url: string, headers: map<string, string>, params: map<string, ParamValue>)

  /** The server's answer: status code, parsed JSON body and raw text. */
  datatype Response<B> = Response(status: int, body: B, text: string)

  datatype Op = InsertOp | UpdateOp | SelectOp

  /** What a call raises: the HTTP error exception, or the unpacking error of a bad order string. */
  datatype Failure = HttpError(op: Op, status: int, text: string) | BadOrder(order: string)

  /** Any status of 400 or above is an error carrying the status and the response text. */
  function Checked<B>(op: Op, resp: Response<B>): (r: Result<B, Failure>)
    ensures r.Failure? <==> resp.status >= 400
    ensures r.Success? ==> r.value == resp.body
    ensures r.Failure? ==> r.error == HttpError(op, resp.status, resp.text)
  {
    if resp.status >= 400 then Failure(HttpError(op, resp.status, resp.text)) else Success(resp.body)
  }

  /** One `k=eq.v` term per filter, in filter order. */
  function FilterTerms(filters: Filters): (terms: seq<string>)
    ensures |terms| == |filters|
    ensures forall i :: 0 <= i < |filters| ==> terms[i] == filters[i].0 + "=eq." + filters[i].1
  {
    if filters == [] then [] else [filters[0].0 + "=eq." + filters[0].1] + FilterTerms(filters[1..])
  }

  /** The query string of an update: the filter terms joined with '&'; empty only without filters. */
  function QueryString(filters: Filters): (q: string)
    ensures q == [] <==> filters == []
  {
    Join(FilterTerms(filters), '&')
  }

  /** Reads one `k=eq.v` term back: the key ends at the first '='. */
  function ParseTerm(term: string): Option<(string, string)> {
    match IndexOf(term, '=')
    case None => None
    case Some(i) =>
      var rest := term[i + 1..];
      if |rest| >= 3 && rest[..3] == "eq." then Some((term[..i], rest[3..])) else None
  }

  function ParseTerms(terms: seq<string>): Option<Filters> {
    if terms == [] then Some([])
    else match (ParseTerm(terms[0]), ParseTerms(terms[1..]))
      case (Some(f), Some(fs)) => Some([f] + fs)
      case _ => None
  }

  /** Reads an update query string back into its filters. */
  function ParseQuery(q: string): Option<Filters> {
    ParseTerms(Split(q, '&'))
  }

  /** No filter key contains '&' or '=', and no filter value contains '&'. */
  predicate PlainFilters(filters: Filters) {
    forall i :: 0 <= i < |filters| ==> '&' !in filters[i].0 && '=' !in filters[i].0 && '&' !in filters[i].1
  }

  /** A single `k=eq.v` term reads back as (k, v) when the key holds no '='. */
  lemma ParseTermOfFilterTerm(k: string, v: string)
    requires '=' !in k
    ensures ParseTerm(k + "=eq." + v) == Some((k, v))
  {
    var t := k + "=eq." + v;
    assert t[..|k|] == k && t[|k|] == '=';
    assert IndexOf(t, '=') == Some(|k|);
    var rest := t[|k| + 1..];
    assert rest == "eq." + v;
    assert rest[..3] == "eq." && rest[3..] == v;
  }

  lemma {:induction false} ParseTermsOfFilterTerms(filters: Filters)
    requires PlainFilters(filters)
    ensures ParseTerms(FilterTerms(filters)) == Some(filters)
  {
    if filters != [] {
      var terms := FilterTerms(filters);
      ParseTermOfFilterTerm(filters[0].0, filters[0].1);
      assert terms[1..] == FilterTerms(filters[1..]);
      ParseTermsOfFilterTerms(filters[1..]);
      assert filters == [filters[0]] + filters[1..];
    }
  }

  /**
   * The update query string determines the filters: reading it back gives them,
   * in order, as long as there is at least one filter and the text is unambiguous.
   */
  lemma {:induction false} QueryStringRoundTrip(filters: Filters)
    requires |filters| >= 1 && PlainFilters(filters)
    ensures ParseQuery(QueryString(filters)) == Some(filters)
  {
    var terms := FilterTerms(filters);
    forall k | 0 <= k < |terms| ensures '&' !in terms[k] {
      assert terms[k] == filters[k].0 + "=eq." + filters[k].1;
    }
    JoinThenSplit(terms, '&');
    ParseTermsOfFilterTerms(filters);
  }

  /** With no filters the query string is empty, so the update URL ends in '?'. */
  lemma EmptyFiltersQuery()
    ensures QueryString([]) == ""
  {
  }

  /** Python truthiness of the optional order string and limit. */
  predicate Given(order: Option<string>) {
    order.Some? && order.value != ""
  }

  predicate LimitGiven(limit: Option<int>) {
    limit.Some? && limit.value != 0
  }

  /** The keys the filters name. */
  function FilterKeys(filters: Filters): set<string> {
    set i | 0 <= i < |filters| :: filters[i].0
  }

  /** The keys of all filters: those of all but the last, and the last's. */
  lemma FilterKeysLast(filters: Filters)
    requires filters != []
    ensures FilterKeys(filters) == FilterKeys(filters[..|filters| - 1]) + {filters[|filters| - 1].0}
  {
    var init := filters[..|filters| - 1];
    assert forall i :: 0 <= i < |init| ==> filters[i] == init[i];
  }

  /**
   * The params after the filter loop: each filter assigns `eq.<value>` to its key, later ones win.
   * The loop adds exactly the filter keys.
   */
  function WithFilters(params: map<string, ParamValue>, filters: Filters): (r: map<string, ParamValue>)
    ensures r.Keys == params.Keys + FilterKeys(filters)
  {
    if filters == [] then params
    else
      var last := filters[|filters| - 1];
      FilterKeysLast(filters);
      WithFilters(params, filters[..|filters| - 1])[last.0 := Str("eq." + last.1)]
  }

  /**
   * The params dict of a select, or the error the order unpacking raises. On success the
   * params are exactly `select`, the filter keys, `order` when one is given and `limit`
   * when one is given.
   */
  function SelectParams(columns: string, filters: Filters, order: Option<string>, limit: Option<int>)
    : (r: Result<map<string, ParamValue>, Failure>)
    ensures r.Failure? ==> order.Some? && r.error == BadOrder(order.value)
    ensures r.Success? ==>
              r.value.Keys == {"select"} + FilterKeys(filters)
                              + (if Given(order) then {"order"} else {}) + (if LimitGiven(limit) then {"limit"} else {})
  {
    var p := WithFilters(map["select" := Str(columns)], filters);
    if Given(order) && |Split(order.value, '.')| != 2 then Failure(BadOrder(order.value))
    else
      var p2 := if Given(order) then
                  var parts := Split(order.value, '.'); p["order" := Str(parts[0] + "." + parts[1])]
                else p;
      Success(if LimitGiven(limit) then p2["limit" := Int(limit.value)] else p2)
  }

  /** A dict has distinct keys. */
  predicate DistinctKeys(filters: Filters) {
    forall i, j :: 0 <= i < j < |filters| ==> filters[i].0 != filters[j].0
  }

  /** After the filter loop every filter key maps to `eq.<value>`, when no key repeats. */
  lemma {:induction false} WithFiltersSets(params: map<string, ParamValue>, filters: Filters)
    requires DistinctKeys(filters)
    ensures forall i :: 0 <= i < |filters| ==>
              filters[i].0 in WithFilters(params, filters)
              && WithFilters(params, filters)[filters[i].0] == Str("eq." + filters[i].1)
  {
    if filters != [] {
      var init, last := filters[..|filters| - 1], filters[|filters| - 1];
      assert DistinctKeys(init);
      WithFiltersSets(params, init);
      forall i | 0 <= i < |init| ensures init[i].0 != last.0 && init[i] == filters[i] {
      }
    }
  }

  /** The filter loop leaves a key no filter names as it was, present or absent. */
  lemma {:induction false} WithFiltersKeeps(params: map<string, ParamValue>, filters: Filters, k: string)
    requires NoFilter(filters, k)
    ensures k in WithFilters(params, filters) <==> k in params
    ensures k in params ==> WithFilters(params, filters)[k] == params[k]
  {
    if filters != [] {
      var init := filters[..|filters| - 1];
      assert filters[|filters| - 1].0 != k;
      forall i | 0 <= i < |init| ensures init[i].0 != k {
        assert init[i] == filters[i];
      }
      WithFiltersKeeps(params, init, k);
    }
  }

  /** The filter loop maps every filter key to `eq.<value>` and leaves other keys as they were. */
  lemma WithFiltersSpec(params: map<string, ParamValue>, filters: Filters)
    requires DistinctKeys(filters)
    ensures forall i :: 0 <= i < |filters| ==>
              filters[i].0 in WithFilters(params, filters)
              && WithFilters(params, filters)[filters[i].0] == Str("eq." + filters[i].1)
    ensures forall k :: NoFilter(filters, k) ==>
              (k in WithFilters(params, filters) <==> k in params)
              && (k in params ==> WithFilters(params, filters)[k] == params[k])
  {
    WithFiltersSets(params, filters);
    forall k | NoFilter(filters, k)
      ensures (k in WithFilters(params, filters) <==> k in params)
              && (k in params ==> WithFilters(params, filters)[k] == params[k])
    {
      WithFiltersKeeps(params, filters, k);
    }
  }

  /** No filter is named k. */
  predicate NoFilter(filters: Filters, k: string) {
    forall i :: 0 <= i < |filters| ==> filters[i].0 != k
  }

  /** A select fails exactly when a given order string does not split into two parts at '.'. */
  lemma SelectParamsFailure(columns: string, filters: Filters, order: Option<string>, limit: Option<int>)
    ensures SelectParams(columns, filters, order, limit).Failure?
            <==> Given(order) && |Split(order.value, '.')| != 2
  {
  }

  /** `select` carries the column list, unless a filter of the same name overwrote it. */
  lemma {:induction false} SelectParamsColumns(columns: string, filters: Filters, order: Option<string>, limit: Option<int>)
    requires DistinctKeys(filters) && NoFilter(filters, "select")
    requires SelectParams(columns, filters, order, limit).Success?
    ensures var p := SelectParams(columns, filters, order, limit).value;
            "select" in p && p["select"] == Str(columns)
  {
    WithFiltersSpec(map["select" := Str(columns)], filters);
  }

  /** Every filter key maps to `eq.<value>`, unless the order or limit parameter overwrote it. */
  lemma {:induction false} SelectParamsFilters(columns: string, filters: Filters, order: Option<string>, limit: Option<int>, i: nat)
    requires DistinctKeys(filters) && i < |filters|
    requires SelectParams(columns, filters, order, limit).Success?
    requires !(filters[i].0 == "order" && Given(order)) && !(filters[i].0 == "limit" && LimitGiven(limit))
    ensures var p := SelectParams(columns, filters, order, limit).value;
            filters[i].0 in p && p[filters[i].0] == Str("eq." + filters[i].1)
  {
    WithFiltersSpec(map["select" := Str(columns)], filters);
  }

  /** A given order string is stored whole: its two parts are rejoined with '.'. */
  lemma {:induction false} SelectParamsOrder(columns: string, filters: Filters, order: Option<string>, limit: Option<int>)
    requires Given(order) && SelectParams(columns, filters, order, limit).Success?
    ensures var p := SelectParams(columns, filters, order, limit).value;
            "order" in p && p["order"] == Str(order.value)
  {
    var parts := Split(order.value, '.');
    SplitThenJoin(order.value, '.');
    assert parts[1..] == [parts[1]];
    assert Join(parts, '.') == parts[0] + ['.'] + Join(parts[1..], '.');
  }

  /** `limit` is sent exactly when it is non-zero (None and 0 are falsy), absent a filter of that name. */
  lemma {:induction false} SelectParamsLimit(columns: string, filters: Filters, order: Option<string>, limit: Option<int>)
    requires DistinctKeys(filters) && NoFilter(filters, "limit")
    requires SelectParams(columns, filters, order, limit).Success?
    ensures var p := SelectParams(columns, filters, order, limit).value;
            ("limit" in p <==> LimitGiven(limit)) && (LimitGiven(limit) ==> p["limit"] == Int(limit.value))
  {
    WithFiltersSpec(map["select" := Str(columns)], filters);
  }

  /** `order` is sent exactly when an order string is given, absent a filter of that name. */
  lemma {:induction false} SelectParamsOrderPresent(columns: string, filters: Filters, order: Option<string>, limit: Option<int>)
    requires DistinctKeys(filters) && NoFilter(filters, "order")
    requires SelectParams(columns, filters, order, limit).Success?
    ensures "order" in SelectParams(columns, filters, order, limit).value <==> Given(order)
  {
    WithFiltersSpec(map["select" := Str(columns)], filters);
  }

  /** A select with one filter, a two-part order and a non-zero limit sends exactly these four params. */
  lemma {:induction false} SelectParamsOneFilter(columns: string, k: string, v: string, order: string, limit: int)
    requires k != "select" && k != "order" && k != "limit"
    requires order != "" && |Split(order, '.')| == 2 && limit != 0
    ensures SelectParams(columns, [(k, v)], Some(order), Some(limit))
            == Success(map["select" := Str(columns), k := Str("eq." + v), "order" := Str(order), "limit" := Int(limit)])
  {
    var base := map["select" := Str(columns)];
    assert [(k, v)][..0] == [];
    assert WithFilters(base, [(k, v)]) == base[k := Str("eq." + v)];
    var parts := Split(order, '.');
    SplitThenJoin(order, '.');
    assert parts[1..] == [parts[1]];
    assert Join(parts, '.') == parts[0] + ['.'] + Join(parts[1..], '.');
    assert parts[0] + "." + parts[1] == order;
  }

  /** The client: the base URL and the headers are fixed when it is built. */
  class SimpleSupabase {
    const baseUrl: string
    const headers: map<string, string>

    constructor (url: string, key: string)
      ensures baseUrl == url + "/rest/v1"
      ensures headers == map["apikey" := key, "Authorization" := "Bearer " + key,
                             "Content-Type" := "application/json", "Prefer" := "return=representation"]
    {
      baseUrl := url + "/rest/v1";
      headers := map["apikey" := key, "Authorization" := "Bearer " + key,
                     "Content-Type" := "application/json", "Prefer" := "return=representation"];
    }

    /** POST to the table; the response decides between the body and an error. */
    method Insert<B>(table: string, resp: Response<B>) returns (req: Request, r: Result<B, Failure>)
      ensures req == Request(Post, baseUrl + "/" + table, headers, map[])
      ensures r.Failure? <==> resp.status >= 400
      ensures r.Success? ==> r.value == resp.body
      ensures r.Failure? ==> r.error == HttpError(InsertOp, resp.status, resp.text)
    {
      req := Request(Post, baseUrl + "/" + table, headers, map[]);
      r := Checked(InsertOp, resp);
    }

    /** PATCH the rows matching the filters, given in the URL's query string. */
    method Update<B>(table: string, filters: Filters, resp: Response<B>) returns (req: Request, r: Result<B, Failure>)
      ensures req.verb == Patch && req.headers == headers && req.params == map[]
      ensures req.url == baseUrl + "/" + table + "?" + QueryString(filters)
      ensures r.Failure? <==> resp.status >= 400
      ensures r.Success? ==> r.value == resp.body
      ensures r.Failure? ==> r.error == HttpError(UpdateOp, resp.status, resp.text)
    {
      var queryParams := QueryString(filters);
      req := Request(Patch, baseUrl + "/" + table + "?" + queryParams, headers, map[]);
      r := Checked(UpdateOp, resp);
    }

    /**
     * GET the table with the select params built in a loop over the filters.
     * A bad order string raises before any request is sent (req is None).
     */
    method Select<B>(table: string, columns: string, filters: Filters, order: Option<string>, limit: Option<int>,
                     resp: Response<B>)
      returns (req: Option<Request>, r: Result<B, Failure>)
      ensures match SelectParams(columns, filters, order, limit)
        case Failure(e) => req.None? && r == Failure(e)
        case Success(p) =>
          && req == Some(Request(Get, baseUrl + "/" + table, headers, p))
          && (r.Failure? <==> resp.status >= 400)
          && (r.Success? ==> r.value == resp.body)
          && (r.Failure? ==> r.error == HttpError(SelectOp, resp.status, resp.text))
    {
      var params := map["select" := Str(columns)];
      for i := 0 to |filters|
        invariant params == WithFilters(map["select" := Str(columns)], filters[..i])
      {
        assert filters[..i + 1][..i] == filters[..i];
        params := params[filters[i].0 := Str("eq." + filters[i].1)];
      }
      assert filters[..|filters|] == filters;
      if Given(order) {
        var parts := Split(order.value, '.');
        if |parts| != 2 {
          return None, Failure(BadOrder(order.value));
        }
        params := params["order" := Str(parts[0] + "." + parts[1])];
      }
      if LimitGiven(limit) {
        params := params["limit" := Int(limit.value)];
      }
      req := Some(Request(Get, baseUrl + "/" + table, headers, params));
      r := Checked(SelectOp, resp);
    }
  }
}
