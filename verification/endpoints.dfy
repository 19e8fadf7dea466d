/** The path-and-query strings the client builds for the fills and the
    order-listing requests, with the quirks of the concatenation kept:
    later statuses are joined as `&status<value>` without `=`, and the
    `?`/`&` choice in front of `product_id` is the reverse of the usual one.
    The symbol translation to the exchange's own pair name belongs to a module
    that is not part of this model; it is the parameter `toExchange`. */
module Endpoints {
  import opened Common

  const FillsPath := "/fills"
  const OrdersPath := "/orders"
  const FillsProductPrefix := "/fills?product_id="

  // ---------------------------------------------------------------------------
  // Fills

  /** The endpoint of a fills request, filtered by product when a symbol is given. */
  function FillsEndpoint(symbol: Option<string>, toExchange: string -> string): (r: string)
    ensures FillsPath <= r
    ensures r == FillsPath <==> symbol.None?
  {
    match symbol
    case None => FillsPath
    case Some(s) => FillsPath + "?product_id=" + toExchange(s)
  }

  /** Reads the product filter back out of a fills endpoint. */
  function FillsProduct(endpoint: string): (r: Option<string>)
    ensures r.Some? ==> FillsProductPrefix + r.value == endpoint
  {
    if FillsProductPrefix <= endpoint then Some(endpoint[|FillsProductPrefix|..]) else None
  }

  /** The fills endpoint carries exactly the translated symbol, or no filter at all. */
  lemma FillsRoundTrip(symbol: Option<string>, toExchange: string -> string)
    ensures FillsProduct(FillsEndpoint(symbol, toExchange))
            == match symbol case None => None case Some(s) => Some(toExchange(s))
  {
  }

  // ---------------------------------------------------------------------------
  // Order listing

  /** The request body of an order listing: an optional list of statuses and
      an optional product, each present or absent as a dict key. */
  datatype OrderFilter = OrderFilter(status: Option<seq<string>>, productId: Option<string>)

  /** One pass of the status loop: `?status=` while the endpoint does not yet
      contain the text `status`, `&status` (no `=`) once it does. Either way
      the endpoint is kept, the status comes last, and the endpoint then
      contains `status`. */
  function AppendStatus(endpoint: string, status: string): (r: string)
    ensures endpoint <= r
    ensures |r| == |endpoint| + |status| + (if Contains(endpoint, "status") then 7 else 8)
    ensures r[|r| - |status|..] == status
    ensures Contains(r, "status")
  {
    JoinedStatusContainsStatus(endpoint, "?status=", status);
    JoinedStatusContainsStatus(endpoint, "&status", status);
    if !Contains(endpoint, "status") then endpoint + "?status=" + status
    else endpoint + "&status" + status
  }

  /** Both joiners of the status loop spell `status` right after their first character. */
  lemma JoinedStatusContainsStatus(endpoint: string, joiner: string, status: string)
    requires joiner == "?status=" || joiner == "&status"
    ensures Contains(endpoint + joiner + status, "status")
  {
    var r := endpoint + joiner + status;
    assert r[|endpoint| + 1..][..6] == joiner[1..7] == "status";
    assert OccursAt(r, "status", |endpoint| + 1);
  }

  /** The status loop run over `statuses` in list order: the endpoint is
      kept, and it contains `status` once any status was appended. */
  function AppendStatuses(endpoint: string, statuses: seq<string>): (r: string)
    ensures endpoint <= r
    ensures statuses != [] ==> Contains(r, "status")
    decreases |statuses|
  {
    if statuses == [] then endpoint
    else AppendStatuses(AppendStatus(endpoint, statuses[0]), statuses[1..])
  }

  /** The product parameter: `?product_id=` when the endpoint contains `status`,
      `&product_id=` otherwise. The endpoint is kept and only the separator
      depends on it. */
  function AppendProduct(endpoint: string, productId: string): (r: string)
    ensures endpoint <= r && |r| > |endpoint|
    ensures r[|endpoint|] == '?' <==> Contains(endpoint, "status")
    ensures r[|endpoint| + 1..] == "product_id=" + productId
  {
    if Contains(endpoint, "status") then endpoint + "?product_id=" + productId
    else endpoint + "&product_id=" + productId
  }

  /** The order-listing endpoint exactly as the client builds it: always
      under `/orders`, and the bare path when the body filters nothing. */
  function OrdersEndpoint(filter: OrderFilter, toExchange: string -> string): (r: string)
    ensures OrdersPath <= r
    ensures filter.productId.None? && (filter.status.None? || filter.status == Some([])) ==> r == OrdersPath
  {
    var withStatus := match filter.status
      case None => OrdersPath
      case Some(statuses) => AppendStatuses(OrdersPath, statuses);
    match filter.productId
    case None => withStatus
    case Some(p) => AppendProduct(withStatus, toExchange(p))
  }

  /** Builds the order-listing endpoint by reassigning a string in a loop over
      the statuses, then appending the product filter. */
  method BuildOrdersEndpoint(filter: OrderFilter, toExchange: string -> string) returns (endpoint: string)
    ensures endpoint == OrdersEndpoint(filter, toExchange)
  {
    endpoint := OrdersPath;
    if filter.status.Some? {
      var statuses := filter.status.value;
      var i := 0;
      while i < |statuses|
        invariant 0 <= i <= |statuses|
        invariant AppendStatuses(endpoint, statuses[i..]) == AppendStatuses(OrdersPath, statuses)
      {
        assert statuses[i..][1..] == statuses[i + 1..];
        if !Contains(endpoint, "status") {
          endpoint := endpoint + "?status=" + statuses[i];
        } else {
          endpoint := endpoint + "&status" + statuses[i];
        }
        i := i + 1;
      }
    }
    if filter.productId.Some? {
      var productId := toExchange(filter.productId.value);
      if Contains(endpoint, "status") {
        endpoint := endpoint + "?product_id=" + productId;
      } else {
        endpoint := endpoint + "&product_id=" + productId;
      }
    }
  }

  /** Reference reading of the status parameters: the first as `?status=v`,
      every later one as `&statusv`. */
  function StatusParams(statuses: seq<string>): string
  {
    if statuses == [] then "" else "?status=" + statuses[0] + LaterStatusParams(statuses[1..])
  }

  function LaterStatusParams(statuses: seq<string>): string
    decreases |statuses|
  {
    if statuses == [] then "" else "&status" + statuses[0] + LaterStatusParams(statuses[1..])
  }

  /** The bare orders path does not contain the text `status`. */
  lemma OrdersPathLacksStatus()
    ensures !Contains(OrdersPath, "status")
  {
    forall i: nat
      ensures !OccursAt(OrdersPath, "status", i)
    {
      if i == 0 {
        assert OrdersPath[0..][0] == '/';
      } else if i == 1 {
        assert OrdersPath[1..][0] == 'o';
      }
    }
  }

  /** The first status is joined with `?status=`, after which the endpoint
      contains `status`. */
  lemma FirstStatusAppended(status: string)
    ensures AppendStatus(OrdersPath, status) == OrdersPath + "?status=" + status
    ensures Contains(OrdersPath + "?status=" + status, "status")
  {
    OrdersPathLacksStatus();
  }

  /** Once the endpoint contains `status`, every later status is joined with `&status`. */
  lemma {:induction false} LaterStatusesAppended(endpoint: string, statuses: seq<string>)
    requires Contains(endpoint, "status")
    ensures AppendStatuses(endpoint, statuses) == endpoint + LaterStatusParams(statuses)
    decreases |statuses|
  {
    if statuses != [] {
      var next := endpoint + "&status" + statuses[0];
      ConcatAssoc(endpoint, "&status", statuses[0]);
      ContainsAppend(endpoint, "&status" + statuses[0], "status");
      LaterStatusesAppended(next, statuses[1..]);
      ConcatAssoc(endpoint, "&status" + statuses[0], LaterStatusParams(statuses[1..]));
    }
  }

  /** The status loop yields the orders path followed by the reference parameters. */
  lemma StatusLoopMeaning(statuses: seq<string>)
    ensures AppendStatuses(OrdersPath, statuses) == OrdersPath + StatusParams(statuses)
  {
    if statuses != [] {
      var first := OrdersPath + "?status=" + statuses[0];
      var later := LaterStatusParams(statuses[1..]);
      FirstStatusAppended(statuses[0]);
      LaterStatusesAppended(first, statuses[1..]);
      ConcatAssoc(OrdersPath, "?status=" + statuses[0], later);
      ConcatAssoc(OrdersPath, "?status=", statuses[0]);
    }
  }

  /** The endpoint after the status loop contains `status` exactly when some
      status was given, which is what the product separator tests. */
  lemma StatusPartMentionsStatus(statuses: seq<string>)
    ensures Contains(OrdersPath + StatusParams(statuses), "status") <==> statuses != []
  {
    if statuses == [] {
      OrdersPathLacksStatus();
      assert OrdersPath + StatusParams(statuses) == OrdersPath;
    } else {
      var first := OrdersPath + "?status=" + statuses[0];
      var later := LaterStatusParams(statuses[1..]);
      FirstStatusAppended(statuses[0]);
      ContainsAppend(first, later, "status");
      ConcatAssoc(OrdersPath, "?status=" + statuses[0], later);
      ConcatAssoc(OrdersPath, "?status=", statuses[0]);
    }
  }

  /** The whole order-listing endpoint: statuses in list order, then the
      product joined by `?` when there were statuses and by `&` when there were none. */
  lemma OrdersEndpointMeaning(filter: OrderFilter, toExchange: string -> string)
    ensures var statuses := match filter.status case None => [] case Some(s) => s;
            var base := OrdersPath + StatusParams(statuses);
            OrdersEndpoint(filter, toExchange)
              == match filter.productId
                 case None => base
                 case Some(p) => base + (if statuses != [] then "?product_id=" else "&product_id=") + toExchange(p)
  {
    var statuses := match filter.status case None => [] case Some(s) => s;
    StatusLoopMeaning(statuses);
    StatusPartMentionsStatus(statuses);
  }

  /** With no statuses the product filter is joined with `&`, not `?`:
      the endpoint is `/orders&product_id=` and the translated pair. */
  lemma ProductWithoutStatuses(status: Option<seq<string>>, p: string, toExchange: string -> string)
    requires status.None? || status == Some([])
    ensures OrdersEndpoint(OrderFilter(status, Some(p)), toExchange) == OrdersPath + "&product_id=" + toExchange(p)
  {
    OrdersEndpointMeaning(OrderFilter(status, Some(p)), toExchange);
    assert OrdersPath + StatusParams([]) == OrdersPath;
  }

  /** Two statuses: the first joined with `?status=`, the second with
      `&status` and no `=`. */
  lemma TwoStatuses(a: string, b: string)
    ensures AppendStatuses(OrdersPath, [a, b]) == OrdersPath + "?status=" + a + "&status" + b
  {
    var first := OrdersPath + "?status=" + a;
    FirstStatusAppended(a);
    LaterStatusesAppended(first, [b]);
    assert [a, b][1..] == [b] && [b][1..] == [];
    assert LaterStatusParams([b]) == "&status" + b + "";
    assert "&status" + b + "" == "&status" + b;
    ConcatAssoc(first, "&status", b);
  }

  /** Two statuses and a product, as the client writes them: the product is
      joined with a second `?`, so `open`, `pending` and `BTC-USD` give
      `/orders?status=open&statuspending?product_id=` and the translated pair. */
  lemma TwoStatusesAndProduct(a: string, b: string, p: string, toExchange: string -> string)
    ensures OrdersEndpoint(OrderFilter(Some([a, b]), Some(p)), toExchange)
            == OrdersPath + "?status=" + a + "&status" + b + "?product_id=" + toExchange(p)
  {
    OrdersEndpointMeaning(OrderFilter(Some([a, b]), Some(p)), toExchange);
    TwoStatuses(a, b);
    StatusLoopMeaning([a, b]);
  }

  /** Without `=` the status list cannot be read back: the statuses `a`, `b`
      and the single status `a&statusb` give the same endpoint. */
  lemma StatusListsCollide(a: string, b: string, toExchange: string -> string)
    ensures OrdersEndpoint(OrderFilter(Some([a, b]), None), toExchange)
            == OrdersEndpoint(OrderFilter(Some([a + "&status" + b]), None), toExchange)
  {
    var joined := a + "&status" + b;
    TwoStatuses(a, b);
    FirstStatusAppended(joined);
    assert [joined][1..] == [];
    assert AppendStatuses(OrdersPath, [joined]) == OrdersPath + "?status=" + joined;
    ConcatAssoc(OrdersPath + "?status=", a + "&status", b);
    ConcatAssoc(OrdersPath + "?status=", a, "&status");
  }
}
