/** The client-side date filter applied to fetched fills: with both bounds
    given, only the entries created within [start, end] are kept, in their
    original order. Creation times are parsed from the `created_at` text by
    the parameter `parse`, an opaque parser giving an instant (an integer,
    say microseconds since the epoch, which orders instants totally) or
    nothing when the text does not match the expected format. */
module FillsFilter {
  import opened Common

  /** The creation instant of an entry, or the error its lookup or parse raises. */
  function CreatedAt(entry: Record, parse: string -> Option<int>): (r: Result<int>)
    ensures "created_at" !in entry ==> r == Err(KeyError("created_at"))
    ensures r.Ok? <==> "created_at" in entry && parse(entry["created_at"]).Some?
    ensures r.Ok? ==> r.value == parse(entry["created_at"]).value
    ensures "created_at" in entry && r.Err? ==> r == Err(ValueError)
  {
    match Field(entry, "created_at")
    case Err(e) => Err(e)
    case Ok(text) =>
      match parse(text)
      case None => Err(ValueError)
      case Some(t) => Ok(t)
  }

  /** The entry parses and was created within [start, end], both ends included. */
  predicate InWindow(entry: Record, parse: string -> Option<int>, start: int, end: int)
  {
    var t := CreatedAt(entry, parse);
    t.Ok? && start <= t.value && t.value <= end
  }

  /** The filter loop over `data`: the entries in the window, in order, or the
      error of the first entry whose creation time cannot be read. */
  function KeepInRange(data: seq<Record>, parse: string -> Option<int>, start: int, end: int): (r: Result<seq<Record>>)
    ensures r.Ok? ==> |r.value| <= |data|
    ensures r.Ok? ==> forall e :: e in r.value ==> e in data && InWindow(e, parse, start, end)
    decreases |data|
  {
    if data == [] then Ok([])
    else
      var last := data[|data| - 1];
      match KeepInRange(data[..|data| - 1], parse, start, end)
      case Err(e) => Err(e)
      case Ok(kept) =>
        match CreatedAt(last, parse)
        case Err(e) => Err(e)
        case Ok(t) => Ok(if start <= t && t <= end then kept + [last] else kept)
  }

  /** The date-filter step of a fills request: empty data stays empty, a
      missing bound lets the data through unchanged, and otherwise the loop
      appends each entry in the window to a new list. */
  method FilterFills(data: seq<Record>, start: Option<int>, end: Option<int>, parse: string -> Option<int>)
    returns (r: Result<seq<Record>>)
    ensures data == [] ==> r == Ok([])
    ensures data != [] && (start.None? || end.None?) ==> r == Ok(data)
    ensures data != [] && start.Some? && end.Some? ==> r == KeepInRange(data, parse, start.value, end.value)
  {
    if data == [] {
      // the client only logs a "No data" warning here
      return Ok([]);
    }
    if start.None? || end.None? {
      return Ok(data);
    }
    var lo, hi := start.value, end.value;
    var inRange: seq<Record> := [];
    var i := 0;
    while i < |data|
      invariant 0 <= i <= |data|
      invariant KeepInRange(data[..i], parse, lo, hi) == Ok(inRange)
    {
      assert data[..i + 1][..i] == data[..i];
      var t := CreatedAt(data[i], parse);
      if t.Err? {
        ErrorPersists(data, i + 1, parse, lo, hi);
        assert data[..|data|] == data;
        return Err(t.error);
      }
      if lo <= t.value && t.value <= hi {
        inRange := inRange + [data[i]];
      }
      i := i + 1;
    }
    assert data[..|data|] == data;
    return Ok(inRange);
  }

  /** The first error stops the filter: later entries do not change it. */
  lemma {:induction false} ErrorPersists(data: seq<Record>, i: nat, parse: string -> Option<int>, start: int, end: int)
    requires i <= |data|
    requires KeepInRange(data[..i], parse, start, end).Err?
    ensures KeepInRange(data, parse, start, end) == KeepInRange(data[..i], parse, start, end)
    decreases |data| - i
  {
    if i < |data| {
      assert data[..i + 1][..i] == data[..i];
      ErrorPersists(data, i + 1, parse, start, end);
    } else {
      assert data[..i] == data;
    }
  }

  /** `a` is `b` with some entries left out, the rest in the same order. */
  predicate Subsequence(a: seq<Record>, b: seq<Record>)
    decreases |b|
  {
    if b == [] then a == []
    else (a != [] && a[|a| - 1] == b[|b| - 1] && Subsequence(a[..|a| - 1], b[..|b| - 1]))
         || Subsequence(a, b[..|b| - 1])
  }

  /** The number of entries of `data` inside the window. */
  function CountInWindow(data: seq<Record>, parse: string -> Option<int>, start: int, end: int): nat
    decreases |data|
  {
    if data == [] then 0
    else CountInWindow(data[..|data| - 1], parse, start, end)
         + (if InWindow(data[|data| - 1], parse, start, end) then 1 else 0)
  }

  /** What the filter keeps: only entries inside the window, in their
      original order, and as many of them as the data holds. */
  lemma {:induction false} KeptExactlyInWindow(data: seq<Record>, parse: string -> Option<int>, start: int, end: int)
    requires KeepInRange(data, parse, start, end).Ok?
    ensures var kept := KeepInRange(data, parse, start, end).value;
            && Subsequence(kept, data)
            && (forall e :: e in kept ==> InWindow(e, parse, start, end))
            && |kept| == CountInWindow(data, parse, start, end)
    decreases |data|
  {
    if data != [] {
      var front := data[..|data| - 1];
      KeptExactlyInWindow(front, parse, start, end);
      var kept := KeepInRange(front, parse, start, end).value;
      var last := data[|data| - 1];
      if InWindow(last, parse, start, end) {
        assert (kept + [last])[..|kept|] == kept;
      }
    }
  }

  /** Every entry inside the window reaches the output. */
  lemma {:induction false} InWindowKept(data: seq<Record>, parse: string -> Option<int>, start: int, end: int, e: Record)
    requires KeepInRange(data, parse, start, end).Ok?
    requires e in data && InWindow(e, parse, start, end)
    ensures e in KeepInRange(data, parse, start, end).value
    decreases |data|
  {
    var front := data[..|data| - 1];
    if e != data[|data| - 1] {
      assert e in front by {
        var k :| 0 <= k < |data| && data[k] == e;
        assert front[k] == e;
      }
      InWindowKept(front, parse, start, end, e);
    }
  }

  /** The filter raises exactly when some entry's creation time cannot be read. */
  lemma {:induction false} FilterFailsIffUnreadable(data: seq<Record>, parse: string -> Option<int>, start: int, end: int)
    ensures KeepInRange(data, parse, start, end).Err?
            <==> exists k :: 0 <= k < |data| && CreatedAt(data[k], parse).Err?
    decreases |data|
  {
    if data != [] {
      var front := data[..|data| - 1];
      FilterFailsIffUnreadable(front, parse, start, end);
      if exists k :: 0 <= k < |front| && CreatedAt(front[k], parse).Err? {
        var k :| 0 <= k < |front| && CreatedAt(front[k], parse).Err?;
        assert data[k] == front[k];
      }
      if exists k :: 0 <= k < |data| && CreatedAt(data[k], parse).Err? {
        var k :| 0 <= k < |data| && CreatedAt(data[k], parse).Err?;
        if k < |front| {
          assert front[k] == data[k];
        }
      }
    }
  }

  /** Filtering the filtered data again changes nothing. */
  lemma {:induction false} FilterIdempotent(data: seq<Record>, parse: string -> Option<int>, start: int, end: int)
    requires KeepInRange(data, parse, start, end).Ok?
    ensures var kept := KeepInRange(data, parse, start, end).value;
            KeepInRange(kept, parse, start, end) == Ok(kept)
    decreases |data|
  {
    if data != [] {
      var front := data[..|data| - 1];
      FilterIdempotent(front, parse, start, end);
      var kept := KeepInRange(front, parse, start, end).value;
      var last := data[|data| - 1];
      if InWindow(last, parse, start, end) {
        assert (kept + [last])[..|kept|] == kept;
      }
    }
  }
}
