# GDAX REST client: deterministic core

This project models the deterministic logic inside cryptofeed's REST client for
the GDAX exchange (`cryptofeed/rest/gdax.py`). Most of that file is network I/O.
The model keeps the string, sequence and decision logic that sits between the I/O calls:

- **Endpoints** (`endpoints.dfy`): the path-and-query strings of a fills request
  and of an order listing. The order listing is built by a loop that reassigns
  the endpoint string; it is modelled as a method with that loop.
- **Signer** (`signer.dfy`): the signed message and the five authentication headers.
- **Dispatcher** (`dispatcher.dfy`): one pass of the request loop of
  `_make_request`. This covers the host choice, what is logged for each HTTP
  status, and whether the pass returns the body or raises.
- **FillsFilter** (`fills_filter.dfy`): the client-side `[start, end]` filter on
  fetched fills. The loop appends entries to a new list; it is modelled as a
  method with that loop.
- **Normalization** (`normalization.dfy`): `_trade_normalization`, which builds
  the framework's record from a raw exchange record.
- **Common** (`common.dfy`): the error datatype, `Option`/`Result`, dict lookup
  and Python's substring test `sub in s`.

The model follows the code as written, quirks included.

- In the order listing, later statuses are joined as `&status<value>`, with no `=`.
- The product filter is joined by `?` after statuses and by `&` when there are
  none, so a product-only listing is `/orders&product_id=X`.
- Two statuses and a product give `/orders?status=open&statuspending?product_id=`
  followed by the translated `BTC-USD`. A query string normally has one `?` and
  `key=value` pairs joined by `&`, which would be `?status=open&status=pending&product_id=...`.
  Because the `=` is missing, two different status lists can produce the same endpoint.
- Lines 54-69 hold a retry countdown: `retry` is decremented, then `sleep(retry_wait)`
  and `continue`. Lines 76-92 call `raise_for_status` at the end of every non-200
  branch. As written, neither has the effect that reading suggests.
  - `raise_for_status` of the `requests` library raises only for 4xx and 5xx
    codes. So any other non-200 code is logged as an error and then its body is returned.
  - A caught timeout or connection error first reads `retry`. The later
    `retry -= 1` makes `retry` a local variable that was never assigned, so the
    read raises `UnboundLocalError`, and no path of the loop body reaches `continue`.
  - An HTTP verb other than GET, POST or DELETE sends nothing. The pass then
    raises `UnboundLocalError` on `resp`.
- The order-shaped branch of normalization (a record without `order_id`) reads
  `id` and `type` from the raw record, and raises `KeyError` for the first of them
  that is missing. It then reads `fill_fees` from the record it is building, not
  from the raw record, so when `id` and `type` are present it raises
  `KeyError('fill_fees')`. Only records with an `order_id` normalize.

Some operations are not interpreted and are passed in as parameters:

- HMAC-SHA256 (RFC 2104) with base64 of the digest (section 4 of RFC 4648): `mac`.
- Base64 decoding of the secret: `decodeSecret`.
- The clock text `str(time.time())`: `timestamp`.
- The pair translation `pair_std_to_exchange`: `toExchange`.
- The `created_at` parser: `parse`.
- The exchange's answer to a request: `transport`.
- The feed identifier `Gdax.ID`: `feed`.

## Model

| member | source | states |
|---|---|---|
| `Common.Field` | cryptofeed/rest/gdax.py:114 | A dict subscript gives the stored value when the key is present, and raises `KeyError` for that key when it is absent. |
| `Common.ContainsScan` | cryptofeed/rest/gdax.py:131 | Python's `sub in s` holds if and only if `sub` is a prefix of `s`, or `s` is non-empty and `sub` occurs in `s` without its first character. |
| `Common.ContainsAppend` | cryptofeed/rest/gdax.py:131-138 | Once `sub in s` holds, it still holds after more text is appended to `s`. |
| `Endpoints.FillsEndpoint` | cryptofeed/rest/gdax.py:97-101 | The fills endpoint always starts with `/fills`. It is exactly `/fills` if and only if no symbol is given. |
| `Endpoints.FillsRoundTrip` | cryptofeed/rest/gdax.py:98-101 | Reading the `?product_id=` filter back out of the fills endpoint gives exactly the translated symbol. With no symbol it gives no filter. |
| `Endpoints.AppendStatus` | cryptofeed/rest/gdax.py:131-134 | One pass of the status loop keeps the endpoint as a prefix and puts the status last. It adds 8 characters plus the status (`?status=`) while the endpoint lacks `status`, and 7 plus the status (`&status`) once it has it. Afterwards the endpoint contains `status`. |
| `Endpoints.AppendStatuses` | cryptofeed/rest/gdax.py:129-134 | The status loop keeps the starting endpoint as a prefix. After at least one status the endpoint contains `status`. |
| `Endpoints.AppendProduct` | cryptofeed/rest/gdax.py:136-141 | The product step keeps the endpoint, then adds one separator and `product_id=` with the product. The separator is `?` if and only if the endpoint contains `status`. |
| `Endpoints.OrdersEndpoint` | cryptofeed/rest/gdax.py:128-141 | The order-listing endpoint always starts with `/orders`. It is exactly `/orders` when the body has no product and no statuses. |
| `Endpoints.BuildOrdersEndpoint` | cryptofeed/rest/gdax.py:124-141 | The loop over the statuses, followed by the product step, builds exactly `OrdersEndpoint` of the request body. |
| `Endpoints.OrdersPathLacksStatus` | cryptofeed/rest/gdax.py:128-131 | The bare `/orders` path does not contain the text `status`, so the first status takes the `?status=` branch. |
| `Endpoints.FirstStatusAppended` | cryptofeed/rest/gdax.py:128-132 | The first status is appended to `/orders` as `?status=` + value. |
| `Endpoints.LaterStatusesAppended` | cryptofeed/rest/gdax.py:130-134 | Once the endpoint contains `status`, every further status is appended as `&status` + value, with no `=`. |
| `Endpoints.StatusLoopMeaning` | cryptofeed/rest/gdax.py:128-134 | Statuses are taken in list order: the first as `?status=` + value, each later one as `&status` + value. No statuses add nothing. |
| `Endpoints.StatusPartMentionsStatus` | cryptofeed/rest/gdax.py:129-138 | After the status loop, the endpoint contains `status` if and only if at least one status was given. |
| `Endpoints.OrdersEndpointMeaning` | cryptofeed/rest/gdax.py:128-141 | The whole orders endpoint is the status parameters, then the product joined by `?` when there were statuses and by `&` when there were none. A missing `status` key and an empty list behave alike. |
| `Endpoints.ProductWithoutStatuses` | cryptofeed/rest/gdax.py:136-141 | With no statuses, the product filter gives `/orders&product_id=` followed by the translated product. |
| `Endpoints.TwoStatuses` | cryptofeed/rest/gdax.py:128-134 | Any two statuses `a`, `b` give `/orders?status=` + a + `&status` + b; so `open`, `pending` give `/orders?status=open&statuspending`. |
| `Endpoints.TwoStatusesAndProduct` | cryptofeed/rest/gdax.py:128-141 | Two statuses `a`, `b` and a product give `/orders?status=` + a + `&status` + b + `?product_id=` and the translated product: the product is joined with a second `?`. |
| `Endpoints.StatusListsCollide` | cryptofeed/rest/gdax.py:130-134 | For any `a`, `b`, the lists `[a, b]` and `[a + "&status" + b]` give the same endpoint, so the status list cannot be read back. |
| `Signer.HeaderNames` | cryptofeed/rest/gdax.py:30-36 | The header map has five distinct names. |
| `Signer.AsciiEncode` | cryptofeed/rest/gdax.py:27 | ASCII encoding succeeds if and only if every character is below 128. It then gives one byte per character, with the same code. |
| `Signer.SignedMessage` | cryptofeed/rest/gdax.py:25 | The signed message starts with the timestamp and ends with the body. Its length is the sum of the lengths of timestamp, method, endpoint and body: no separator is added. |
| `Signer.GenerateSignature` | cryptofeed/rest/gdax.py:23-36 | A malformed secret raises. Otherwise a non-ASCII message raises. Otherwise the headers have exactly the five names, with the key id, the passphrase, `Application/JSON`, the same timestamp as the message, and the MAC of the decoded secret over timestamp ++ method ++ endpoint ++ body. The body defaults to the empty text. |
| `Signer.SignWithoutBody` | cryptofeed/rest/gdax.py:23-27 | A signing call without a body, as the fills, order-listing and single-order requests make at lines 103, 143 and 155, signs timestamp ++ method ++ endpoint alone. It succeeds if and only if the secret decodes and that text is ASCII. |
| `Signer.MessageParts` | cryptofeed/rest/gdax.py:25 | Given the lengths of its parts, the signed message yields back the timestamp, method, endpoint and body in that order, with no separators. |
| `Signer.MessageDistinguishesBodies` | cryptofeed/rest/gdax.py:25 | For a fixed timestamp, method and endpoint, two messages are equal if and only if the bodies are equal. |
| `Signer.EndpointBodyBoundaryUnsigned` | cryptofeed/rest/gdax.py:25 | Moving a character from the start of the body to the end of the endpoint leaves the signed message unchanged. |
| `Signer.SignedTimestampMatchesHeader` | cryptofeed/rest/gdax.py:24-33 | The `CB-ACCESS-TIMESTAMP` header is the prefix of the message that was signed. |
| `Dispatcher.RequestUrl` | cryptofeed/rest/gdax.py:40-51 | The request URL is the sandbox host when the sandbox flag is set, and the production host otherwise, followed by the endpoint unchanged. |
| `Dispatcher.ErrorLog` | cryptofeed/rest/gdax.py:76-92 | Nothing is logged if and only if the code is 200. Otherwise at most three lines are logged, in the order status, headers, body. Headers are logged for every non-200 code except 500. The body is logged for every non-200 code except 401, 403, 404 and 500. |
| `Dispatcher.RaisesForStatus` | cryptofeed/rest/gdax.py:80-92 | `raise_for_status`, as the `requests` library defines it, raises exactly for the codes of the 4xx and 5xx classes. |
| `Dispatcher.Attempt` | cryptofeed/rest/gdax.py:44-94 | An unknown verb raises `UnboundLocalError('resp')`. A timeout or connection error logs a warning and raises `UnboundLocalError('retry')`. Any other transport failure propagates. A response logs `ErrorLog` and then returns its body if and only if `raise_for_status` does not raise; otherwise it raises the HTTP error for its code. |
| `Dispatcher.SuccessReturnsBody` | cryptofeed/rest/gdax.py:76-94 | A 200 response returns its body and logs nothing. |
| `Dispatcher.ResponseIsFinal` | cryptofeed/rest/gdax.py:44-94 | A pass that receives a response either returns its body or raises its HTTP error. It never continues the loop. |
| `Dispatcher.NonSuccessLogged` | cryptofeed/rest/gdax.py:76-92 | Every non-200 code logs at least its status line before `raise_for_status`. |
| `Dispatcher.ErrorStatusRaises` | cryptofeed/rest/gdax.py:76-92 | A 4xx or 5xx code raises on the first response, with zero retries. |
| `Dispatcher.LoggedButReturned` | cryptofeed/rest/gdax.py:88-94 | A non-200 code below 400 is logged as an error and its body is still returned. |
| `Dispatcher.TransportFailureNotRetried` | cryptofeed/rest/gdax.py:52-69 | A caught timeout or connection error raises `UnboundLocalError('retry')` before the `continue`. |
| `FillsFilter.CreatedAt` | cryptofeed/rest/gdax.py:114 | A missing `created_at` raises `KeyError`, and text the parser rejects raises `ValueError`. Otherwise the result is the parsed instant. |
| `FillsFilter.KeepInRange` | cryptofeed/rest/gdax.py:110-118 | When the filter loop finishes, its output is no longer than the data, and every entry in it comes from the data and lies in the window. |
| `FillsFilter.FilterFills` | cryptofeed/rest/gdax.py:106-118 | Empty data stays empty. A missing bound lets the data through unchanged. With both bounds, the looped result is `KeepInRange` of the data. |
| `FillsFilter.ErrorPersists` | cryptofeed/rest/gdax.py:113-114 | The first entry whose time cannot be read decides the error; the entries after it change nothing. |
| `FillsFilter.KeptExactlyInWindow` | cryptofeed/rest/gdax.py:108-118 | The output keeps the original order (it is a subsequence of the data). It holds only entries with start <= created_at <= end, and as many of them as the data holds. |
| `FillsFilter.InWindowKept` | cryptofeed/rest/gdax.py:113-117 | Every entry inside the inclusive window reaches the output. |
| `FillsFilter.FilterFailsIffUnreadable` | cryptofeed/rest/gdax.py:113-114 | The filter raises if and only if some entry's creation time cannot be read. |
| `FillsFilter.FilterIdempotent` | cryptofeed/rest/gdax.py:108-118 | Filtering the output again with the same bounds returns it unchanged. |
| `Normalization.FirstMissing` | cryptofeed/rest/gdax.py:241-248 | Gives no key if and only if every listed field is present. Otherwise it gives the first listed field, in list order, that is missing: every field before it is present. |
| `Normalization.NormalizeTrade` | cryptofeed/rest/gdax.py:240-260 | A missing base field raises `KeyError` for the first one read. Normalization succeeds if and only if the base fields and `order_id` are present. On success the keys are exactly timestamp, pair, feed, side, amount, price and id, taken from created_at, product_id, the feed, side, size, price and order_id. Without `order_id` it raises `KeyError` for `id`, then for `type`, and otherwise for `fill_fees`. |

## Left out

- HTTP transport, `sleep` and the logger (cryptofeed/rest/gdax.py:46-53, 59, 62, 68, 77-91) are I/O. A logged line appears only as a `LogLine` value, and the response is the `transport` parameter.
- The retry countdown (cryptofeed/rest/gdax.py:54-69) is left out. `retry` and `retry_wait` are not parameters of `_make_request`, and the first read of `retry` raises. The model shows that raise and does not invent a countdown.
- Which exception classes reach each handler is simplified. The built-in `TimeoutError` and the library's `ConnectionError` are caught; every other transport failure is a single `TransportFailure`.
- Dispatcher.Attempt: the body is returned as text. The JSON decoding done by `resp.json()`, and its failure, are not modelled.
- The `raise_for_status` rule (it raises for 4xx and 5xx only) comes from the `requests` library, whose source is not part of this model. The rule is taken as that library defines it and written down in `Dispatcher.RaisesForStatus`.
- HMAC-SHA256, base64 and `time.time()` (cryptofeed/rest/gdax.py:24-28) are opaque parameters. The model cannot show that the signature changes with every message byte; it shows this only for the message.
- `pair_std_to_exchange` (cryptofeed/rest/gdax.py:100, 137) lives in `cryptofeed.standards`, which is not part of this model. It is the parameter `toExchange`, a total function, so a failed translation of an unknown pair is not modelled.
- The feed identifier `GDAX` comes from `cryptofeed.feeds`, which is not part of this model. It is the parameter `feed`.
- Date parsing is not modelled. `pd.Timestamp` of the bounds and `strptime` of `created_at` are opaque: the bounds arrive as instants and `created_at` goes through `parse`. As written, line 114 names `datetime`, but only `dt` is imported, so that line would raise `NameError`. The model follows the evident intent of an opaque parse.
- The normalization of the filtered data (cryptofeed/rest/gdax.py:120) passes two arguments to a one-argument method, so it always fails on non-empty data. The filter and the normalization are modelled separately, not composed.
- `_delete_order` (cryptofeed/rest/gdax.py:172-178) uses the undefined names `body` and `headers`. It is not modelled.
- `_get_order`, `_post_order`, `fills`, `execute_trades`, `cancel_orders`, `get_orders` and `get_order` only sequence the calls above with I/O, so they are not modelled. So is the normalization of listed orders at line 145.
- Record values are opaque strings. The `status` entry of an order listing's body is taken to be a list of strings.
