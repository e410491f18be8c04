/** The plan cache (PlanCache and parse_cached in src/sql/database.rs). */
module Plans {
  import opened Wrappers
  import opened Syntax
  import opened Planner

  // ------------------------------------------------------------------ recency

  function Elements(s: seq<string>): set<string> {
    set i | 0 <= i < |s| :: s[i]
  }

  function LastRequest(requests: seq<string>, x: string): int {
    if requests == [] then -1
    else if requests[|requests| - 1] == x then |requests| - 1
    else LastRequest(requests[..|requests| - 1], x)
  }

  /** The texts whose latest request is after the latest request of x. */
  function Later(requests: seq<string>, x: string): set<string> {
    set y | y in Elements(requests) && LastRequest(requests, y) > LastRequest(requests, x)
  }

  /** x is among the n most recently requested texts: fewer than n others were requested after it. */
  predicate IsRecent(requests: seq<string>, n: nat, x: string) {
    x in Elements(requests) && |Later(requests, x)| < n
  }

  lemma {:induction false} LastRequestIs(requests: seq<string>, x: string)
    ensures x in Elements(requests) <==> LastRequest(requests, x) >= 0
    ensures LastRequest(requests, x) < |requests|
    ensures LastRequest(requests, x) >= 0 ==> requests[LastRequest(requests, x)] == x
    decreases requests
  {
    if requests != [] {
      var init, last := requests[..|requests| - 1], requests[|requests| - 1];
      LastRequestIs(init, x);
      ElementsNext(init, last);
      assert requests == init + [last];
    }
  }

  lemma ElementsNext(s: seq<string>, x: string)
    ensures Elements(s + [x]) == Elements(s) + {x}
  {
    assert (s + [x])[|s|] == x;
    assert forall i :: 0 <= i < |s| ==> (s + [x])[i] == s[i];
  }

  lemma NextRequest(requests: seq<string>, x: string, y: string)
    ensures LastRequest(requests + [x], y) == if y == x then |requests| else LastRequest(requests, y)
  {
    assert (requests + [x])[..|requests|] == requests;
  }

  lemma LaterNext(requests: seq<string>, x: string, y: string)
    requires y != x && y in Elements(requests)
    ensures Later(requests + [x], y) == Later(requests, y) + {x} && Later(requests + [x], x) == {}
  {
    ElementsNext(requests, x);
    forall z ensures LastRequest(requests + [x], z) == if z == x then |requests| else LastRequest(requests, z) {
      NextRequest(requests, x, z);
    }
    forall z ensures LastRequest(requests, z) < |requests| {
      LastRequestIs(requests, z);
    }
  }

  lemma LaterOfLast(requests: seq<string>, x: string)
    ensures Later(requests + [x], x) == {} && x in Elements(requests + [x])
  {
    ElementsNext(requests, x);
    NextRequest(requests, x, x);
    forall z ensures LastRequest(requests + [x], z) <= |requests| {
      LastRequestIs(requests + [x], z);
    }
  }

  lemma {:induction false} SubsetSize(a: set<string>, b: set<string>)
    requires a <= b
    ensures |a| <= |b|
    decreases b
  {
    if b != {} {
      var x :| x in b;
      SubsetSize(a - {x}, b - {x});
    }
  }

  /** Of two requested texts one was requested later, and what is later than it is later than the other. */
  lemma OneIsLater(requests: seq<string>, x: string, y: string)
    requires x != y && x in Elements(requests) && y in Elements(requests)
    ensures LastRequest(requests, x) != LastRequest(requests, y)
    ensures LastRequest(requests, x) < LastRequest(requests, y) ==>
              y in Later(requests, x) && Later(requests, y) + {y} <= Later(requests, x) && |Later(requests, y)| < |Later(requests, x)|
  {
    LastRequestIs(requests, x);
    LastRequestIs(requests, y);
    if LastRequest(requests, x) < LastRequest(requests, y) {
      SubsetSize(Later(requests, y) + {y}, Later(requests, x));
      assert |Later(requests, y) + {y}| == |Later(requests, y)| + 1;
    }
  }

  /** A request for a recent text changes only the order. */
  lemma RecentAgain(requests: seq<string>, n: nat, x: string, y: string)
    requires IsRecent(requests, n, x)
    ensures IsRecent(requests + [x], n, y) <==> IsRecent(requests, n, y)
  {
    ElementsNext(requests, x);
    LaterOfLast(requests, x);
    if y != x && y in Elements(requests) {
      LaterNext(requests, x, y);
      OneIsLater(requests, x, y);
      SubsetSize(Later(requests, y), Later(requests + [x], y));
      if x !in Later(requests, y) {
        OneIsLater(requests, y, x);
        assert |Later(requests, y) + {x}| == |Later(requests, y)| + 1;
      } else {
        assert Later(requests, y) + {x} == Later(requests, y);
      }
    }
  }

  /** A request for a text that is not recent pushes every other text back by one place. */
  lemma NotRecentNext(requests: seq<string>, n: nat, x: string, y: string)
    requires !IsRecent(requests, n, x) && y != x
    ensures IsRecent(requests + [x], n, y) <==> IsRecent(requests, n, y) && |Later(requests, y)| + 1 < n
    ensures n > 0 ==> IsRecent(requests + [x], n, x)
  {
    ElementsNext(requests, x);
    LaterOfLast(requests, x);
    if y in Elements(requests) {
      LaterNext(requests, x, y);
      SubsetSize(Later(requests, y), Later(requests + [x], y));
      if IsRecent(requests, n, y) {
        if x in Later(requests, y) {
          OneIsLater(requests, y, x);
          assert false;
        }
        assert |Later(requests, y) + {x}| == |Later(requests, y)| + 1;
      }
    }
  }

  // ---------------------------------------------------------------------- the cache

  datatype PlanCacheEntry = PlanCacheEntry(version: nat, statement: Statement, lastUsed: nat)

  type Entries = map<string, PlanCacheEntry>

  /** Some of the requested texts, used in the order of their latest requests. */
  ghost predicate InOrder(entries: Entries, requests: seq<string>, clock: nat) {
    forall x :: x in entries ==>
      x in Elements(requests) && entries[x].lastUsed <= clock
      && forall y :: y in entries ==>
           (entries[x].lastUsed < entries[y].lastUsed <==> LastRequest(requests, x) < LastRequest(requests, y))
  }

  ghost predicate HoldsRecent(entries: Entries, requests: seq<string>, n: nat) {
    forall x :: x in entries <==> IsRecent(requests, n, x)
  }

  ghost predicate IsOldest(entries: Entries, oldest: string) {
    oldest in entries && forall x :: x in entries && x != oldest ==> entries[oldest].lastUsed < entries[x].lastUsed
  }

  lemma UsesDiffer(entries: Entries, requests: seq<string>, clock: nat)
    requires InOrder(entries, requests, clock)
    ensures forall x, y :: x in entries && y in entries && x != y ==> entries[x].lastUsed != entries[y].lastUsed
  {
    forall x, y | x in entries && y in entries && x != y ensures entries[x].lastUsed != entries[y].lastUsed {
      OneIsLater(requests, x, y);
    }
  }

  lemma OrderNext(entries: Entries, requests: seq<string>, clock: nat, x: string, entry: PlanCacheEntry)
    requires InOrder(entries, requests, clock) && entry.lastUsed > clock
    ensures InOrder(entries[x := entry], requests + [x], entry.lastUsed)
  {
    ElementsNext(requests, x);
    forall y ensures LastRequest(requests + [x], y) == (if y == x then |requests| else LastRequest(requests, y)) && LastRequest(requests, y) < |requests| {
      NextRequest(requests, x, y);
      LastRequestIs(requests, y);
    }
  }

  lemma {:induction false} ManyAreRecent(entries: Entries, requests: seq<string>, n: nat, x: string)
    requires HoldsRecent(entries, requests, n) && x in entries
    ensures Later(requests, x) + {x} <= entries.Keys && |Later(requests, x)| + 1 <= |entries|
  {
    forall y | y in Later(requests, x) ensures y in entries {
      OneIsLater(requests, x, y);
    }
    SubsetSize(Later(requests, x) + {x}, entries.Keys);
    assert |Later(requests, x) + {x}| == |Later(requests, x)| + 1;
  }

  /** A cache never holds more than it may. */
  lemma {:induction false} NeverTooMany(entries: Entries, requests: seq<string>, n: nat, clock: nat)
    requires HoldsRecent(entries, requests, n) && InOrder(entries, requests, clock)
    ensures |entries| <= n
  {
    if entries != map[] {
      var oldest := OldestExists(entries, requests, clock);
      forall x | x in entries && x != oldest ensures x in Later(requests, oldest) {
        OneIsLater(requests, oldest, x);
      }
      SubsetSize(entries.Keys - {oldest}, Later(requests, oldest));
    }
  }

  lemma {:induction false} OldestExists(entries: Entries, requests: seq<string>, clock: nat) returns (oldest: string)
    requires entries != map[] && InOrder(entries, requests, clock)
    ensures IsOldest(entries, oldest)
    decreases entries.Keys
  {
    assert entries.Keys != {};
    var x :| x in entries;
    UsesDiffer(entries, requests, clock);
    if entries.Keys == {x} {
      oldest := x;
    } else {
      var rest := entries - {x};
      assert rest.Keys < entries.Keys && entries.Keys == rest.Keys + {x};
      oldest := OldestExists(rest, requests, clock);
      oldest := if entries[x].lastUsed < entries[oldest].lastUsed then x else oldest;
      assert forall y :: y in entries ==> y == x || y in rest;
    }
  }

  /** A miss with room to spare: the new text joins the others. */
  lemma JoinedRecent(entries: Entries, requests: seq<string>, n: nat, x: string)
    requires HoldsRecent(entries, requests, n) && x !in entries && |entries| < n
    ensures forall y :: y in entries.Keys + {x} <==> IsRecent(requests + [x], n, y)
  {
    forall y ensures y in entries.Keys + {x} <==> IsRecent(requests + [x], n, y) {
      if y != x {
        NotRecentNext(requests, n, x, y);
        if y in entries {
          ManyAreRecent(entries, requests, n, y);
        }
      } else {
        LaterOfLast(requests, x);
      }
    }
  }

  /** A miss in a full cache: the new text takes the place of the oldest. */
  lemma ReplacedRecent(entries: Entries, requests: seq<string>, n: nat, clock: nat, x: string, oldest: string)
    requires HoldsRecent(entries, requests, n) && InOrder(entries, requests, clock) && x !in entries
    requires |entries| == n && IsOldest(entries, oldest)
    ensures forall y :: y in entries.Keys - {oldest} + {x} <==> IsRecent(requests + [x], n, y)
  {
    forall y ensures y in entries.Keys - {oldest} + {x} <==> IsRecent(requests + [x], n, y) {
      if y == x {
        LaterOfLast(requests, x);
        assert |entries| > 0;
      } else {
        NotRecentNext(requests, n, x, y);
        if y == oldest {
          forall z | z in entries && z != oldest ensures z in Later(requests, oldest) {
            OneIsLater(requests, oldest, z);
          }
          SubsetSize(entries.Keys - {oldest}, Later(requests, oldest));
        } else if y in entries {
          OneIsLater(requests, oldest, y);
          ManyAreRecent(entries, requests, n, oldest);
        }
      }
    }
  }

  class PlanCache {
    const capacity: nat
    var clock: nat
    var entries: map<string, PlanCacheEntry>

    constructor (size: nat)
      ensures capacity == size && clock == 0 && entries == map[]
    {
      capacity, clock, entries := size, 0, map[];
    }

    /** A hit refreshes the entry; an entry of another schema version is dropped. */
    method Get(sql: string, version: nat) returns (plan: Option<Statement>)
      modifies this`clock, this`entries
      ensures clock == old(clock) + 1
      ensures plan.Some? <==> sql in old(entries) && old(entries)[sql].version == version
      ensures plan.Some? ==> plan.value == old(entries)[sql].statement
                             && entries == old(entries)[sql := old(entries)[sql].(lastUsed := clock)]
      ensures plan.None? ==> entries == old(entries) - {sql}
    {
      clock := clock + 1;
      if sql !in entries {
        assert entries - {sql} == entries;
        return None;
      }
      var entry := entries[sql];
      if entry.version != version {
        entries := entries - {sql};
        return None;
      }
      entries := entries[sql := entry.(lastUsed := clock)];
      return Some(entry.statement);
    }

    /** The least recently used entry makes room when the cache is full. */
    method Insert(sql: string, version: nat, statement: Statement)
      requires |entries| <= capacity
      requires forall x, y :: x in entries && y in entries && x != y ==> entries[x].lastUsed != entries[y].lastUsed
      modifies this`clock, this`entries
      ensures clock == old(clock) + if capacity == 0 then 0 else 1
      ensures sql in old(entries) && capacity > 0 ==> entries == old(entries)[sql := PlanCacheEntry(version, statement, clock)]
      ensures sql !in old(entries) ==> InsertGives(old(entries), capacity, sql, PlanCacheEntry(version, statement, clock), entries)
    {
      if capacity == 0 {
        return;
      }
      clock := clock + 1;
      if |entries| >= capacity && sql !in entries {
        assert entries.Keys != {};
        var oldest := Oldest(entries);
        assert IsOldest(entries, oldest);
        entries := entries - {oldest};
      }
      entries := entries[sql := PlanCacheEntry(version, statement, clock)];
    }

    method Clear()
      modifies this`entries
      ensures entries == map[]
    {
      entries := map[];
    }
  }

  /** Iterator::min_by_key over the last uses. */
  method Oldest(entries: map<string, PlanCacheEntry>) returns (oldest: string)
    requires entries != map[]
    ensures oldest in entries && forall x :: x in entries ==> entries[oldest].lastUsed <= entries[x].lastUsed
  {
    var todo := entries.Keys;
    assert todo != {};
    oldest :| oldest in todo;
    while todo != {}
      invariant todo <= entries.Keys && oldest in entries
      invariant forall x :: x in entries && x !in todo ==> entries[oldest].lastUsed <= entries[x].lastUsed
      decreases todo
    {
      var x :| x in todo;
      if entries[x].lastUsed < entries[oldest].lastUsed {
        oldest := x;
      }
      todo := todo - {x};
    }
  }

  lemma RemovedSize(entries: Entries, x: string)
    ensures |entries - {x}| == if x in entries then |entries| - 1 else |entries|
  {
    assert (entries - {x}).Keys == entries.Keys - {x};
    assert |(entries - {x}).Keys| == |entries - {x}|;
  }

  /** A text in the cache is used again, or planned again for a new schema version. */
  lemma Refreshed(entries: Entries, requests: seq<string>, n: nat, clock: nat, x: string, entry: PlanCacheEntry)
    requires HoldsRecent(entries, requests, n) && InOrder(entries, requests, clock) && x in entries && entry.lastUsed > clock
    ensures HoldsRecent(entries[x := entry], requests + [x], n) && InOrder(entries[x := entry], requests + [x], entry.lastUsed)
  {
    OrderNext(entries, requests, clock, x, entry);
    forall y ensures y in entries[x := entry] <==> IsRecent(requests + [x], n, y) {
      RecentAgain(requests, n, x, y);
    }
  }

  lemma NothingFits(entries: Entries, requests: seq<string>, x: string)
    requires HoldsRecent(entries, requests, 0)
    ensures entries == map[] && HoldsRecent(map[], requests + [x], 0)
  {
    forall y ensures y !in entries && !IsRecent(requests + [x], 0, y) {
      assert !IsRecent(requests, 0, y);
    }
  }

  lemma Joined(entries: Entries, requests: seq<string>, n: nat, clock: nat, x: string, entry: PlanCacheEntry)
    requires HoldsRecent(entries, requests, n) && InOrder(entries, requests, clock) && x !in entries && |entries| < n
    requires entry.lastUsed > clock
    ensures HoldsRecent(entries[x := entry], requests + [x], n) && InOrder(entries[x := entry], requests + [x], entry.lastUsed)
  {
    OrderNext(entries, requests, clock, x, entry);
    JoinedRecent(entries, requests, n, x);
  }

  lemma Replaced(entries: Entries, requests: seq<string>, n: nat, clock: nat, x: string, oldest: string, entry: PlanCacheEntry)
    requires HoldsRecent(entries, requests, n) && InOrder(entries, requests, clock) && x !in entries && |entries| == n
    requires IsOldest(entries, oldest) && entry.lastUsed > clock
    ensures var after := (entries - {oldest})[x := entry];
            HoldsRecent(after, requests + [x], n) && InOrder(after, requests + [x], entry.lastUsed)
  {
    OrderNext(entries - {oldest}, requests, clock, x, entry);
    ReplacedRecent(entries, requests, n, clock, x, oldest);
  }

  /** What Insert makes of the entries that Get has left. */
  ghost predicate InsertGives(removed: Entries, n: nat, x: string, entry: PlanCacheEntry, after: Entries) {
    if n == 0 then after == removed
    else if |removed| < n then after == removed[x := entry]
    else exists oldest :: IsOldest(removed, oldest) && after == (removed - {oldest})[x := entry]
  }

  lemma InsertedNone(before: Entries, requests: seq<string>, clock: nat, x: string, after: Entries, now: nat)
    requires HoldsRecent(before, requests, 0) && after == before - {x}
    ensures HoldsRecent(after, requests + [x], 0) && InOrder(after, requests + [x], now)
  {
    NothingFits(before, requests, x);
    assert after == map[];
  }

  lemma InsertedAgain(before: Entries, requests: seq<string>, n: nat, clock: nat, x: string, entry: PlanCacheEntry, after: Entries)
    requires HoldsRecent(before, requests, n) && InOrder(before, requests, clock) && x in before && entry.lastUsed > clock
    requires after == (before - {x})[x := entry]
    ensures HoldsRecent(after, requests + [x], n) && InOrder(after, requests + [x], entry.lastUsed)
  {
    assert after == before[x := entry];
    Refreshed(before, requests, n, clock, x, entry);
  }

  lemma InsertedNew(before: Entries, requests: seq<string>, n: nat, clock: nat, x: string, entry: PlanCacheEntry, after: Entries)
    requires HoldsRecent(before, requests, n) && InOrder(before, requests, clock) && x !in before && |before| <= n && entry.lastUsed > clock
    requires n > 0 && InsertGives(before, n, x, entry, after)
    ensures HoldsRecent(after, requests + [x], n) && InOrder(after, requests + [x], entry.lastUsed)
  {
    if |before| < n {
      Joined(before, requests, n, clock, x, entry);
    } else {
      var oldest :| IsOldest(before, oldest) && after == (before - {oldest})[x := entry];
      Replaced(before, requests, n, clock, x, oldest, entry);
    }
  }

  lemma Inserted(before: Entries, requests: seq<string>, n: nat, clock: nat, x: string, entry: PlanCacheEntry, after: Entries)
    requires HoldsRecent(before, requests, n) && InOrder(before, requests, clock) && |before| <= n && entry.lastUsed > clock
    requires InsertGives(before - {x}, n, x, entry, after)
    ensures HoldsRecent(after, requests + [x], n) && InOrder(after, requests + [x], entry.lastUsed)
  {
    RemovedSize(before, x);
    if n == 0 {
      InsertedNone(before, requests, clock, x, after, entry.lastUsed);
    } else if x in before {
      InsertedAgain(before, requests, n, clock, x, entry, after);
    } else {
      assert before - {x} == before;
      InsertedNew(before, requests, n, clock, x, entry, after);
    }
  }

  // ------------------------------------------------------------------- parse_cached

  /** What a text means to the engine: its optimized parse. */
  function PlanFor(parse: string -> Result<Statement>, sql: string): Result<Statement> {
    if parse(sql).Err? then Err else Ok(OptimizeStatement(parse(sql).value))
  }

  ghost predicate Planned(parse: string -> Result<Statement>, entries: Entries) {
    forall sql :: sql in entries ==> PlanFor(parse, sql) == Ok(entries[sql].statement)
  }

  lemma PlannedNext(parse: string -> Result<Statement>, removed: Entries, n: nat, x: string, entry: PlanCacheEntry, after: Entries)
    requires Planned(parse, removed) && PlanFor(parse, x) == Ok(entry.statement) && InsertGives(removed, n, x, entry, after)
    ensures Planned(parse, after)
  {
  }

  lemma NeverCached(parse: string -> Result<Statement>, entries: Entries, x: string)
    requires Planned(parse, entries) && PlanFor(parse, x).Err?
    ensures entries - {x} == entries
  {
    assert x !in entries;
  }

  lemma PlannedAgain(parse: string -> Result<Statement>, entries: Entries, x: string, entry: PlanCacheEntry)
    requires Planned(parse, entries) && x in entries && entry.statement == entries[x].statement
    ensures Planned(parse, entries[x := entry])
  {
  }

  lemma InOrderLater(entries: Entries, requests: seq<string>, clock: nat, later: nat)
    requires InOrder(entries, requests, clock) && clock <= later
    ensures InOrder(entries, requests, later)
  {
  }

  class PlanStore {
    const cache: PlanCache
    const parse: string -> Result<Statement>
    /** The parseable texts requested since the last clear. */
    ghost var requests: seq<string>

    /** The cached texts are exactly the most recently requested ones, as many as fit, each with its plan. */
    ghost predicate Valid()
      reads this, cache
    {
      && HoldsRecent(cache.entries, requests, cache.capacity)
      && InOrder(cache.entries, requests, cache.clock)
      && Planned(parse, cache.entries)
    }

    constructor (size: nat, parser: string -> Result<Statement>)
      ensures Valid() && parse == parser && cache.capacity == size && requests == [] && fresh(cache)
    {
      var c := new PlanCache(size);
      cache, parse, requests := c, parser, [];
    }

    /** After a miss the text is planned and cached. */
    method PlanAndInsert(sql: string, version: nat, plan: Statement, ghost before: Entries, ghost clock: nat)
      requires HoldsRecent(before, requests, cache.capacity) && InOrder(before, requests, clock) && |before| <= cache.capacity
      requires Planned(parse, before) && PlanFor(parse, sql) == Ok(plan)
      requires cache.entries == before - {sql} && cache.clock == clock + 1
      modifies this`requests, cache
      ensures Valid() && requests == old(requests) + [sql]
    {
      ghost var n, entry := cache.capacity, PlanCacheEntry(version, plan, clock + 2);
      RemovedSize(before, sql);
      UsesDiffer(before, requests, clock);
      cache.Insert(sql, version, plan);
      Inserted(before, requests, n, clock, sql, entry, cache.entries);
      PlannedNext(parse, before - {sql}, n, sql, entry, cache.entries);
      requests := requests + [sql];
      InOrderLater(cache.entries, requests, if n == 0 then clock + 1 else clock + 2, cache.clock);
    }

    method ParseCached(sql: string, version: nat) returns (r: Result<Statement>)
      requires Valid()
      modifies this`requests, cache
      ensures Valid() && r == PlanFor(parse, sql)
      ensures requests == old(requests) + if r.Ok? then [sql] else []
    {
      ghost var before, clock, n := cache.entries, cache.clock, cache.capacity;
      NeverTooMany(before, requests, n, clock);
      var cached := cache.Get(sql, version);
      if cached.Some? {
        Refreshed(before, requests, n, clock, sql, cache.entries[sql]);
        PlannedAgain(parse, before, sql, cache.entries[sql]);
        requests := requests + [sql];
        return Ok(cached.value);
      }
      r := PlanFor(parse, sql);
      if r.Ok? {
        PlanAndInsert(sql, version, r.value, before, clock);
      } else {
        NeverCached(parse, before, sql);
        InOrderLater(before, requests, clock, cache.clock);
      }
    }

    method Clear()
      requires Valid()
      modifies this`requests, cache
      ensures Valid() && requests == [] && cache.entries == map[]
    {
      cache.Clear();
      requests := [];
    }
  }
}
