/** Normalization of a raw trade, fill or order record from the exchange into
    the framework's record: a fixed set of renamed fields, then an `id` taken
    from `order_id` when the raw record has one. The other branch, meant for
    order-shaped records, reads its extra fields from the record under
    construction instead of the raw one, so it always raises. */
module Normalization {
  import opened Common

  /** The raw fields copied into every normalized record, in the order the client reads them. */
  const SourceFields := ["created_at", "product_id", "side", "size", "price"]

  /** The keys of a successfully normalized record. */
  const NormalizedKeys := {"timestamp", "pair", "feed", "side", "amount", "price", "id"}

  /** The first of `keys` missing from `m`, if any: a missing key at some
      position with every key before it present. */
  function FirstMissing(m: Record, keys: seq<string>): (r: Option<string>)
    ensures r.None? <==> forall k :: k in keys ==> k in m
    ensures r.Some? ==> r.value in keys && r.value !in m
    ensures r.Some? ==> exists i :: 0 <= i < |keys| && keys[i] == r.value && forall j :: 0 <= j < i ==> keys[j] in m
  {
    if keys == [] then None
    else if keys[0] !in m then Some(keys[0])
    else FirstMissing(m, keys[1..])
  }

  /** Builds the normalized record of `trade` for the exchange `feed`. */
  method NormalizeTrade(trade: Record, feed: string) returns (r: Result<Record>)
    ensures FirstMissing(trade, SourceFields).Some? ==> r == Err(KeyError(FirstMissing(trade, SourceFields).value))
    ensures r.Ok? <==> FirstMissing(trade, SourceFields).None? && "order_id" in trade
    ensures r.Ok? ==> r.value.Keys == NormalizedKeys
    ensures r.Ok? ==> && r.value["timestamp"] == trade["created_at"]
                      && r.value["pair"] == trade["product_id"]
                      && r.value["feed"] == feed
                      && r.value["side"] == trade["side"]
                      && r.value["amount"] == trade["size"]
                      && r.value["price"] == trade["price"]
                      && r.value["id"] == trade["order_id"]
    ensures FirstMissing(trade, SourceFields).None? && "order_id" !in trade
            ==> r == Err(KeyError(if "id" !in trade then "id" else if "type" !in trade then "type" else "fill_fees"))
  {
    assert SourceFields[1..] == ["product_id", "side", "size", "price"];
    assert SourceFields[1..][1..] == ["side", "size", "price"];
    assert SourceFields[1..][1..][1..] == ["size", "price"];
    assert SourceFields[1..][1..][1..][1..] == ["price"];
    var created := Field(trade, "created_at");
    if created.Err? { return Err(created.error); }
    var pair := Field(trade, "product_id");
    if pair.Err? { return Err(pair.error); }
    assert FirstMissing(trade, SourceFields) == FirstMissing(trade, ["side", "size", "price"]);
    var side := Field(trade, "side");
    if side.Err? { return Err(side.error); }
    assert FirstMissing(trade, SourceFields) == FirstMissing(trade, ["size", "price"]);
    var size := Field(trade, "size");
    if size.Err? { return Err(size.error); }
    assert FirstMissing(trade, SourceFields) == FirstMissing(trade, ["price"]);
    var price := Field(trade, "price");
    if price.Err? { return Err(price.error); }
    var tradeData := map["timestamp" := created.value, "pair" := pair.value, "feed" := feed,
                         "side" := side.value, "amount" := size.value, "price" := price.value];
    if "order_id" in trade {
      tradeData := tradeData["id" := trade["order_id"]];
      return Ok(tradeData);
    }
    var id := Field(trade, "id");
    if id.Err? { return Err(id.error); }
    tradeData := tradeData["id" := id.value];
    var kind := Field(trade, "type");
    if kind.Err? { return Err(kind.error); }
    tradeData := tradeData["type" := kind.value];
    // The order-shaped fields are looked up in the record being built, which
    // holds only the keys set above: the first lookup raises.
    var fees := Field(tradeData, "fill_fees");
    assert fees.Err?;
    return Err(fees.error);
  }
}
