/** `mcp_report_cache.go`: the bounded cache of report snapshots and the cursors into it. */
module ReportCache {
  import opened Wrappers
  import opened FindingsQuery
  import opened FindingsView

  const CACHE_SIZE: nat := 8
  /** Thirty minutes, in nanoseconds. */
  const CACHE_TTL: int := 1_800_000_000_000

  /** `mcpCachedReport`. */
  datatype Cached = Cached(id: string, tool: string, report: Report, created: int)

  /** A cached report outlives the cutoff; the one created exactly at it does not. */
  predicate Lives(entry: Cached, now: int) {
    entry.created > now - CACHE_TTL
  }

  /** The entries that survive an eviction, in order. */
  function Unexpired(entries: seq<Cached>, now: int): (kept: seq<Cached>)
    ensures |kept| <= |entries|
  {
    if entries == [] then []
    else
      var last := entries[|entries| - 1];
      Unexpired(entries[..|entries| - 1], now) + (if Lives(last, now) then [last] else [])
  }

  function Latest(log: seq<Cached>): seq<Cached> {
    if |log| <= CACHE_SIZE then log else log[|log| - CACHE_SIZE..]
  }

  /** A log of puts under fresh ids and a clock that never runs backwards. */
  ghost predicate IsLog(log: seq<Cached>, clock: int) {
    && (forall k :: 0 <= k < |log| ==> log[k].id != "" && log[k].created <= clock)
    && (forall j, k :: 0 <= j < k < |log| ==> log[j].id != log[k].id && log[j].created <= log[k].created)
  }

  ghost predicate InTimeOrder(log: seq<Cached>) {
    forall j, k :: 0 <= j < k < |log| ==> log[j].created <= log[k].created
  }

  lemma NoneUnexpired(now: int)
    ensures Unexpired([], now) == []
  {
  }

  lemma UnexpiredSnoc(entries: seq<Cached>, entry: Cached, now: int)
    ensures Unexpired(entries + [entry], now) == Unexpired(entries, now) + (if Lives(entry, now) then [entry] else [])
  {
    assert (entries + [entry])[..|entries|] == entries;
  }

  /** Evicting later, from what an earlier eviction left. */
  lemma {:induction false} EvictTwice(entries: seq<Cached>, earlier: int, later: int)
    requires earlier <= later
    ensures Unexpired(Unexpired(entries, earlier), later) == Unexpired(entries, later)
  {
    if entries != [] {
      var init, last := entries[..|entries| - 1], entries[|entries| - 1];
      EvictTwice(init, earlier, later);
      var kept := Unexpired(init, earlier);
      UnexpiredSnoc(kept, last, later);
      assert Unexpired(entries, earlier) == if Lives(last, earlier) then kept + [last] else kept;
    }
  }

  lemma {:induction false} UnexpiredCons(entry: Cached, rest: seq<Cached>, now: int)
    ensures Unexpired([entry] + rest, now) == (if Lives(entry, now) then [entry] else []) + Unexpired(rest, now)
  {
    if rest == [] {
      assert [entry] + rest == [entry];
    } else {
      UnexpiredCons(entry, rest[..|rest| - 1], now);
      assert [entry] + rest == ([entry] + rest[..|rest| - 1]) + [rest[|rest| - 1]];
      UnexpiredSnoc([entry] + rest[..|rest| - 1], rest[|rest| - 1], now);
    }
  }

  lemma {:induction false} AllLive(entries: seq<Cached>, now: int)
    requires forall e <- entries :: Lives(e, now)
    ensures Unexpired(entries, now) == entries
  {
    if entries != [] {
      AllLive(entries[..|entries| - 1], now);
    }
  }

  /** What `put` leaves: evict, append, keep the last eight. This needs a clock that never runs
      backwards: the entry that overflow drops is then the first to expire. */
  lemma PutRetains(log: seq<Cached>, entry: Cached, now: int)
    requires InTimeOrder(log) && Lives(entry, now)
    ensures Unexpired(Latest(log + [entry]), now) == Latest(Unexpired(Latest(log), now) + [entry])
  {
    if |log| < CACHE_SIZE {
      hide Unexpired;
      UnexpiredSnoc(log, entry, now);
    } else {
      var n := |log| - CACHE_SIZE;
      hide Unexpired, Lives;
      LatestMoves(log, entry);
      PutOverflows(log[n], log[n + 1..], entry, now);
    }
  }

  lemma LatestMoves(log: seq<Cached>, entry: Cached)
    requires |log| >= CACHE_SIZE
    ensures var n := |log| - CACHE_SIZE;
      Latest(log) == [log[n]] + log[n + 1..] && Latest(log + [entry]) == log[n + 1..] + [entry]
  {
    var n := |log| - CACHE_SIZE;
    assert log[n..] == [log[n]] + log[n + 1..] && (log + [entry])[n + 1..] == log[n + 1..] + [entry];
  }

  lemma LatestOf(oldest: Cached, rest: seq<Cached>, entry: Cached)
    requires |rest| == CACHE_SIZE - 1
    ensures Latest([oldest] + rest + [entry]) == rest + [entry]
  {
    assert ([oldest] + rest + [entry])[1..] == rest + [entry];
  }

  lemma PutOverflows(oldest: Cached, rest: seq<Cached>, entry: Cached, now: int)
    requires |rest| == CACHE_SIZE - 1 && Lives(entry, now)
    requires forall e <- rest :: oldest.created <= e.created
    ensures Unexpired(rest + [entry], now) == Latest(Unexpired([oldest] + rest, now) + [entry])
  {
    hide Unexpired;
    UnexpiredCons(oldest, rest, now);
    UnexpiredSnoc(rest, entry, now);
    if Lives(oldest, now) {
      AllLive(rest, now);
      LatestOf(oldest, rest, entry);
    } else {
      assert [] + Unexpired(rest, now) == Unexpired(rest, now);
    }
  }

  // ----- cursors -----

  /** A cursor string as its decoder sees it: not the encoding of any cursor, or the fields it holds. */
  datatype Token = Garbage | Fields(version: int, scanID: string, tool: string, offset: int, filters: Selection)

  datatype Cursor = Cursor(scanID: string, tool: string, offset: int, filters: Selection)

  datatype CursorError = Invalid | OtherTool | OtherFilters | Expired | PastEnd

  function EncodeCursor(c: Cursor): Token {
    Fields(1, c.scanID, c.tool, c.offset, c.filters)
  }

  function DecodeCursor(raw: Token): Result<Cursor, CursorError> {
    if raw.Garbage? || raw.version != 1 || raw.scanID == "" || raw.offset < 0 then Err(Invalid)
    else Ok(Cursor(raw.scanID, raw.tool, raw.offset, raw.filters))
  }

  /** Decoding accepts exactly the encodings of cursors with a scan id and a natural offset. */
  lemma CursorRoundTrip(raw: Token, c: Cursor)
    ensures DecodeCursor(raw) == Ok(c) <==> raw == EncodeCursor(c) && c.scanID != "" && c.offset >= 0
    ensures DecodeCursor(raw).Err? ==> DecodeCursor(raw).error == Invalid
  {
  }

  /** What a lookup finds in a log at `now`: the put under that id, if among the last eight and alive. */
  ghost predicate Finds(log: seq<Cached>, id: string, now: int, entry: Cached) {
    exists k :: 0 <= k < |log| && k >= |log| - CACHE_SIZE && log[k] == entry && entry.id == id && Lives(entry, now)
  }

  /** A lookup finds one of the last eight puts, and only if it was made less than thirty minutes ago. */
  lemma FindsRecent(log: seq<Cached>, id: string, now: int, entry: Cached)
    ensures Finds(log, id, now, entry) <==>
      && entry.id == id && now - entry.created < 30 * 60 * 1_000_000_000
      && exists k :: 0 <= k < |log| && |log| - 8 <= k && log[k] == entry
  {
  }

  /** `resolveCursor` in terms of the log of puts. */
  ghost predicate Resolves(log: seq<Cached>, raw: Token, tool: string, f: Selection, now: int,
                           result: Result<(Cursor, Cached), CursorError>) {
    match DecodeCursor(raw)
    case Err(e) => result == Err(e)
    case Ok(c) =>
      if c.tool != tool then result == Err(OtherTool)
      else if c.filters != f then result == Err(OtherFilters)
      else
        match result
        case Ok(found) => found.0 == c && Finds(log, c.scanID, now, found.1)
        case Err(e) => e == Expired && forall entry :: !Finds(log, c.scanID, now, entry)
  }

  /** A cursor resolves exactly when it is the encoding of a cursor of this tool and these filters whose snapshot is still
      held; what is wrong with any other is said in this order. */
  lemma ResolvesWhen(log: seq<Cached>, raw: Token, tool: string, f: Selection, now: int,
                     result: Result<(Cursor, Cached), CursorError>)
    requires Resolves(log, raw, tool, f, now, result)
    ensures result.Ok? ==>
      && raw == EncodeCursor(result.value.0) && result.value.0.tool == tool && result.value.0.filters == f
      && Finds(log, raw.scanID, now, result.value.1)
    ensures result.Err? ==>
      && (result.error == Invalid <==> forall c :: raw == EncodeCursor(c) ==> c.scanID == "" || c.offset < 0)
      && (result.error == OtherTool ==> raw.Fields? && raw.tool != tool)
      && (result.error == OtherFilters ==> raw.Fields? && raw.tool == tool && raw.filters != f)
      && (result.error == Expired ==> raw.Fields? && raw.tool == tool && raw.filters == f
                                      && forall entry :: !Finds(log, raw.scanID, now, entry))
      && result.error != PastEnd
  {
    hide Finds;
    forall c ensures DecodeCursor(raw) == Ok(c) <==> raw == EncodeCursor(c) && c.scanID != "" && c.offset >= 0 {
      CursorRoundTrip(raw, c);
    }
    if result.Err? && result.error == Invalid {
      assert DecodeCursor(raw).Err?;
    }
  }

  /** The cache holds what was still alive among the last eight puts when it last looked. */
  ghost predicate Holds(entries: seq<Cached>, log: seq<Cached>, evicted: int, clock: int) {
    IsLog(log, clock) && evicted <= clock && entries == Unexpired(Latest(log), evicted)
  }

  lemma HoldsAfterEviction(entries: seq<Cached>, log: seq<Cached>, evicted: int, clock: int, now: int)
    requires Holds(entries, log, evicted, clock) && clock <= now
    ensures Holds(Unexpired(entries, now), log, now, now)
  {
    hide Latest;
    EvictTwice(Latest(log), evicted, now);
  }

  lemma HoldsAfterPut(entries: seq<Cached>, log: seq<Cached>, entry: Cached, now: int)
    requires Holds(entries, log, now, now) && now <= entry.created
    requires entry.id != "" && forall e <- log :: e.id != entry.id
    ensures Holds(Latest(entries + [entry]), log + [entry], now, entry.created)
  {
    assert InTimeOrder(log) && IsLog(log + [entry], entry.created);
    assert Lives(entry, now);
    PutRetains(log, entry, now);
    hide Unexpired, Latest, IsLog, InTimeOrder;
  }

  lemma HoldsFinds(entries: seq<Cached>, log: seq<Cached>, now: int, id: string)
    requires Holds(entries, log, now, now)
    ensures forall entry :: Finds(log, id, now, entry) <==> entry in entries && entry.id == id
  {
    hide Latest, Unexpired;
    forall entry ensures Finds(log, id, now, entry) <==> entry in entries && entry.id == id {
      RetainedExactly(log, id, now, entry);
    }
  }

  class Cache {
    var buffer: array<Cached>
    var count: nat
    /** Every report ever put, in order. */
    ghost var log: seq<Cached>
    /** The latest clock reading, and the reading at the latest eviction. */
    ghost var clock: int
    ghost var evicted: int

    ghost predicate Valid()
      reads this, buffer
    {
      buffer.Length > CACHE_SIZE >= count && Holds(buffer[..count], log, evicted, clock)
    }

    constructor (now: int, blank: Cached)
      ensures Valid() && log == [] && clock == now && fresh(buffer)
    {
      buffer := new Cached[CACHE_SIZE + 1](_ => blank);
      count, log, clock, evicted := 0, [], now, now;
    }

    /** The loop of `evictExpiredLocked`: compacts the entries in place. */
    method Compact(now: int) returns (kept: nat)
      requires count <= CACHE_SIZE < buffer.Length
      modifies buffer
      ensures kept <= count && buffer[..kept] == Unexpired(old(buffer[..count]), now)
    {
      hide Unexpired, Latest;
      ghost var before, done := buffer[..count], Unexpired([], now);
      NoneUnexpired(now);
      kept := 0;
      for n := 0 to count
        invariant kept == |done| <= n && done == Unexpired(before[..n], now)
        invariant forall k :: n <= k < count ==> buffer[k] == before[k]
        invariant forall k :: 0 <= k < kept ==> buffer[k] == done[k]
      {
        var entry := buffer[n];
        assert before[..n + 1] == before[..n] + [entry];
        UnexpiredSnoc(before[..n], entry, now);
        if entry.created > now - CACHE_TTL {
          buffer[kept] := entry;
          kept := kept + 1;
          done := done + [entry];
        }
        assert done == Unexpired(before[..n + 1], now);
      }
      assert before[..count] == before && buffer[..kept] == done;
    }

    /** `evictExpiredLocked`. */
    method EvictExpired(now: int)
      requires Valid() && clock <= now
      modifies this`count, this`clock, this`evicted, buffer
      ensures Valid() && clock == evicted == now
    {
      hide Holds, Unexpired;
      HoldsAfterEviction(buffer[..count], log, evicted, clock, now);
      var kept := Compact(now);
      count, clock, evicted := kept, now, now;
    }

    /** The append of `put`, and its copy of the last eight entries on overflow. */
    method Append(entry: Cached)
      requires count <= CACHE_SIZE < buffer.Length
      modifies this`buffer, this`count, buffer
      ensures count <= CACHE_SIZE < buffer.Length && buffer[..count] == Latest(old(buffer[..count]) + [entry])
      ensures buffer == old(buffer) || fresh(buffer)
    {
      ghost var before := buffer[..count];
      buffer[count] := entry;
      assert buffer[..count + 1] == before + [entry];
      count := count + 1;
      if count > CACHE_SIZE {
        var entries, overflow := buffer, count - CACHE_SIZE;
        var smaller := new Cached[CACHE_SIZE + 1](_ => entry);
        for k := 0 to CACHE_SIZE
          invariant buffer == entries && entries[..CACHE_SIZE + 1] == before + [entry]
          invariant forall j :: 0 <= j < k ==> smaller[j] == entries[overflow + j]
        {
          smaller[k] := entries[overflow + k];
        }
        assert smaller[..CACHE_SIZE] == entries[..CACHE_SIZE + 1][overflow..];
        buffer, count := smaller, CACHE_SIZE;
      }
    }

    /** `put`, given the id that was drawn, if one was. */
    method Put(id: Option<string>, tool: string, report: Report, now: int, created: int) returns (result: Option<string>)
      requires Valid() && clock <= now <= created
      requires id.Some? ==> id.value != "" && forall e <- log :: e.id != id.value
      modifies this, buffer
      ensures Valid() && result == id
      ensures clock == (if id.None? then old(clock) else created) && (buffer == old(buffer) || fresh(buffer))
      ensures log == if id.None? then old(log) else old(log) + [Cached(id.value, tool, report, created)]
    {
      hide Holds, Latest;
      if id.None? {
        return None;
      }
      EvictExpired(now);
      var entry := Cached(id.value, tool, report, created);
      HoldsAfterPut(buffer[..count], log, entry, now);
      Append(entry);
      log, clock := log + [entry], created;
      result := id;
    }

    /** `get`. */
    method Get(id: string, now: int) returns (found: Option<Cached>)
      requires Valid() && clock <= now
      modifies this`count, this`clock, this`evicted, buffer
      ensures Valid() && clock == now
      ensures found.Some? ==> Finds(log, id, now, found.value)
      ensures found.None? ==> forall entry :: !Finds(log, id, now, entry)
    {
      hide Holds, Finds;
      EvictExpired(now);
      ghost var entries := buffer[..count];
      HoldsFinds(entries, log, now, id);
      for n := 0 to count
        invariant forall k :: 0 <= k < n ==> buffer[k].id != id
      {
        if buffer[n].id == id {
          assert buffer[n] == entries[n];
          return Some(buffer[n]);
        }
      }
      assert forall k :: 0 <= k < count ==> buffer[k] == entries[k];
      return None;
    }

    /** `resolveCursor`. */
    method ResolveCursor(raw: Token, tool: string, filters: Filters, now: int)
      returns (result: Result<(Cursor, Cached), CursorError>)
      requires Valid() && clock <= now
      modifies this`count, this`clock, this`evicted, buffer
      ensures Valid() && clock <= now
      ensures Resolves(log, raw, tool, filters.selection, now, result)
    {
      var decoded := DecodeCursor(raw);
      if decoded.Err? {
        return Err(decoded.error);
      }
      var cursor := decoded.value;
      if cursor.tool != tool {
        return Err(OtherTool);
      }
      if cursor.filters != filters.selection {
        return Err(OtherFilters);
      }
      var found := Get(cursor.scanID, now);
      if found.None? {
        return Err(Expired);
      }
      return Ok((cursor, found.value));
    }
  }

  lemma {:induction false} UnexpiredExactly(entries: seq<Cached>, now: int, entry: Cached)
    ensures entry in Unexpired(entries, now) <==> entry in entries && Lives(entry, now)
  {
    if entries != [] {
      assert entries == entries[..|entries| - 1] + [entries[|entries| - 1]];
      UnexpiredExactly(entries[..|entries| - 1], now, entry);
    }
  }

  lemma RetainedExactly(log: seq<Cached>, id: string, now: int, entry: Cached)
    ensures Finds(log, id, now, entry) <==> entry in Unexpired(Latest(log), now) && entry.id == id
  {
    UnexpiredExactly(Latest(log), now, entry);
    var n := if |log| <= CACHE_SIZE then 0 else |log| - CACHE_SIZE;
    assert Latest(log) == log[n..];
    if Finds(log, id, now, entry) {
      var k :| 0 <= k < |log| && k >= |log| - CACHE_SIZE && log[k] == entry && entry.id == id && Lives(entry, now);
      assert log[n..][k - n] == entry;
    }
    if entry in Latest(log) {
      var j :| 0 <= j < |Latest(log)| && log[n..][j] == entry;
      assert log[n + j] == entry;
    }
  }
}
