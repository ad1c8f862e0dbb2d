/** The input prefetcher: a byte-limited cache filled by concurrent tasks. Each section of a task that
    runs under one lock is one atomic step; tasks interleave freely between steps. */
module Prefetch {
  import opened Basics

  type Url = string

  datatype Entry = Entry(data: seq<Byte>, hash: int, fetchedAt: nat, size: nat)

  type Cache = map<Url, Entry>

  /** `digest` stands for SHA-256; nothing is assumed about it. */
  datatype Config = Config(maxCacheBytes: nat, cacheTtl: nat, maxInputSize: nat, digest: seq<Byte> -> int)

  /** The data behind the three locks. */
  datatype Shared = Shared(cache: Cache, cacheSize: nat, inProgress: set<Url>)

  // ----- Byte accounting -----

  ghost function CachedBytes(c: Cache): nat
    decreases |c|
  {
    if c == map[] then 0 else var k :| k in c; c[k].size + CachedBytes(c - {k})
  }

  lemma {:induction false} CachedBytesRemove(c: Cache, k: Url)
    requires k in c
    ensures CachedBytes(c) == c[k].size + CachedBytes(c - {k})
    decreases |c|
  {
    var p :| p in c && CachedBytes(c) == c[p].size + CachedBytes(c - {p});
    if p != k {
      CachedBytesRemove(c - {p}, k);
      CachedBytesRemove(c - {k}, p);
      assert c - {p} - {k} == c - {k} - {p};
    }
  }

  lemma CachedBytesInsert(c: Cache, k: Url, e: Entry)
    ensures CachedBytes(c[k := e]) == e.size + CachedBytes(c) - (if k in c then c[k].size else 0)
  {
    CachedBytesRemove(c[k := e], k);
    assert c[k := e] - {k} == c - {k};
    if k in c { CachedBytesRemove(c, k); } else { assert c - {k} == c; }
  }

  // ----- Eviction and insertion -----

  predicate Oldest(c: Cache, k: Url) {
    k in c && forall j :: j in c ==> c[k].fetchedAt <= c[j].fetchedAt
  }

  /** c' is what eviction leaves of c: only whole entries go, oldest first, no more of them than needed,
      and the counter drops by exactly the bytes removed. */
  ghost predicate EvictedTo(cap: nat, need: nat, c: Cache, n: nat, c': Cache, n': nat) {
    && c'.Keys <= c.Keys
    && (forall k :: k in c' ==> c'[k] == c[k])
    && n' == n - (CachedBytes(c) - CachedBytes(c'))
    && (forall r, k :: r in c && r !in c' && k in c' ==> c[r].fetchedAt <= c[k].fetchedAt)
    && (c' != c ==> exists last :: last in c && last !in c' && n' + c[last].size + need > cap)
  }

  /** One more eviction, while the entry to come does not fit. */
  lemma EvictOne(cap: nat, need: nat, c: Cache, n: nat, c': Cache, n': nat, k: Url)
    requires EvictedTo(cap, need, c, n, c', n') && Oldest(c', k) && n' + need > cap
    requires CachedBytes(c') <= n'
    ensures c'[k].size <= n' && EvictedTo(cap, need, c, n, c' - {k}, n' - c'[k].size)
    ensures CachedBytes(c' - {k}) <= n' - c'[k].size
    ensures |c' - {k}| < |c'|
  {
    CachedBytesRemove(c', k);
    var last := k;
    assert last in c && last !in c' - {k} && n' - c'[k].size + c[last].size + need > cap;
  }

  /** The section that adds a verified input to the cache. */
  ghost predicate InsertsVia(cfg: Config, s: Shared, s': Shared, url: Url, data: seq<Byte>, now: nat, c: Cache, n: nat)
  {
    && EvictedTo(cfg.maxCacheBytes, |data|, s.cache, s.cacheSize, c, n)
    && (n + |data| <= cfg.maxCacheBytes || c == map[])
    && s' == Shared(c[url := Entry(data, cfg.digest(data), now, |data|)], n + |data|, s.inProgress)
  }

  /** The same entry by entry: the new one is stored as given, and of the others what is left is unchanged. */
  lemma InsertMeans(cfg: Config, before: Cache, c: Cache, n: nat, url: Url, data: seq<Byte>, now: nat)
    requires c.Keys <= before.Keys && forall k :: k in c ==> c[k] == before[k]
    requires forall r, k :: r in before && r !in c && k in c ==> before[r].fetchedAt <= before[k].fetchedAt
    requires n + |data| <= cfg.maxCacheBytes || c == map[]
    ensures var after := c[url := Entry(data, cfg.digest(data), now, |data|)];
            && (forall k :: k in after && k != url ==> k in before && after[k] == before[k])
            && (forall r, k :: r in before && r !in after && k in after && k != url ==>
                before[r].fetchedAt <= before[k].fetchedAt)
            && (n + |data| <= cfg.maxCacheBytes || |after| == 1)
  {
  }

  class InputPrefetcher {
    const config: Config
    var cache: Cache
    var cacheSize: nat
    var inProgress: set<Url>

    ghost predicate Valid()
      reads this
    {
      CachedBytes(cache) <= cacheSize
    }

    ghost function View(): Shared
      reads this
    {
      Shared(cache, cacheSize, inProgress)
    }

    constructor (config: Config)
      ensures Valid() && this.config == config && View() == Shared(map[], 0, {})
    {
      this.config := config;
      cache, cacheSize, inProgress := map[], 0, {};
    }

    method AlreadyCached(url: Url) returns (r: bool)
      ensures r == (url in View().cache)
    {
      r := url in cache;
    }

    method TryClaim(url: Url) returns (claimed: bool)
      requires Valid()
      modifies this`inProgress
      ensures Valid()
      ensures claimed == (url !in old(inProgress)) && inProgress == old(inProgress) + {url}
    {
      if url in inProgress { return false; }
      inProgress := inProgress + {url};
      return true;
    }

    method Release(url: Url)
      requires Valid()
      modifies this`inProgress
      ensures Valid() && inProgress == old(inProgress) - {url}
    {
      inProgress := inProgress - {url};
    }

    method Insert(url: Url, data: seq<Byte>, now: nat) returns (ghost c: Cache, ghost n: nat)
      requires Valid()
      modifies this`cache, this`cacheSize
      ensures Valid()
      ensures InsertsVia(config, old(View()), View(), url, data, now, c, n)
      ensures url in cache && cache[url] == Entry(data, config.digest(data), now, |data|)
      ensures forall k :: k in cache && k != url ==> k in old(cache) && cache[k] == old(cache)[k]
      ensures forall r, k :: r in old(cache) && r !in cache && k in cache && k != url ==>
                old(cache)[r].fetchedAt <= old(cache)[k].fetchedAt
      ensures old(cacheSize) + |data| <= config.maxCacheBytes ==> c == old(cache)
      ensures cacheSize <= config.maxCacheBytes || |cache| == 1
    {
      var size := |data|;
      MakeRoom(size);
      c, n := cache, cacheSize;
      InsertMeans(config, old(cache), c, n, url, data, now);
      CachedBytesInsert(cache, url, Entry(data, config.digest(data), now, size));
      cache := cache[url := Entry(data, config.digest(data), now, size)];
      cacheSize := cacheSize + size;
    }

    /** The eviction loop. */
    method MakeRoom(size: nat)
      requires Valid()
      modifies this`cache, this`cacheSize
      ensures Valid()
      ensures EvictedTo(config.maxCacheBytes, size, old(cache), old(cacheSize), cache, cacheSize)
      ensures cacheSize + size <= config.maxCacheBytes || cache == map[]
      ensures old(cacheSize) + size <= config.maxCacheBytes ==> cache == old(cache)
      ensures cache != old(cache) ==>
                exists r :: r in old(cache) && r !in cache &&
                    cacheSize + old(cache)[r].size + size > config.maxCacheBytes
      ensures forall r, k :: r in old(cache) && r !in cache && k in cache ==>
                old(cache)[r].fetchedAt <= old(cache)[k].fetchedAt
    {
      ghost var c, n := cache, cacheSize;
      while cacheSize + size > config.maxCacheBytes && cache != map[]
        invariant Valid()
        invariant EvictedTo(config.maxCacheBytes, size, c, n, cache, cacheSize)
        invariant n + size <= config.maxCacheBytes ==> cache == c && cacheSize == n
        decreases |cache|
      {
        EvictOldest(c, n, size);
      }
    }

    /** One eviction. The subtraction never underflows: the counter covers the bytes that are cached. */
    method EvictOldest(ghost c: Cache, ghost n: nat, ghost size: nat)
      requires Valid() && cache != map[] && cacheSize + size > config.maxCacheBytes
      requires EvictedTo(config.maxCacheBytes, size, c, n, cache, cacheSize)
      modifies this`cache, this`cacheSize
      ensures Valid() && |cache| < |old(cache)|
      ensures exists k :: Oldest(old(cache), k) && cache == old(cache) - {k} &&
                cacheSize == old(cacheSize) - old(cache)[k].size
      ensures EvictedTo(config.maxCacheBytes, size, c, n, cache, cacheSize)
    {
      var k := OldestKey();
      EvictOne(config.maxCacheBytes, size, c, n, cache, cacheSize, k);
      cacheSize := cacheSize - cache[k].size;
      cache := cache - {k};
    }

    /** `iter().min_by_key(fetched_at)`: some entry with the least fetch time. */
    method OldestKey() returns (k: Url)
      requires cache != map[]
      ensures Oldest(cache, k)
    {
      k := LeastKey(cache, (e: Entry) => e.fetchedAt);
    }

    method GetCached(url: Url, expected: int, now: nat) returns (r: Option<seq<Byte>>)
      ensures r == Lookup(config, View().cache, url, expected, now)
      ensures r.Some? <==> url in cache && now - cache[url].fetchedAt <= config.cacheTtl && cache[url].hash == expected
      ensures r.Some? ==> r.value == cache[url].data
    {
      if url in cache {
        var e := cache[url];
        if now - e.fetchedAt > config.cacheTtl { return None; }
        if e.hash != expected { return None; }
        return Some(e.data);
      }
      return None;
    }

    method Stats() returns (entries: nat, bytes: nat, fetching: nat, max: nat)
      requires Valid()
      ensures entries == |View().cache| && fetching == |View().inProgress| && max == config.maxCacheBytes
      ensures CachedBytes(View().cache) <= bytes == View().cacheSize
    {
      return |cache|, cacheSize, |inProgress|, config.maxCacheBytes;
    }
  }

  /** What `get_cached` answers: the entry, unless it is too old or was stored under another digest. */
  function Lookup(cfg: Config, c: Cache, url: Url, expected: int, now: nat): Option<seq<Byte>> {
    if url in c && now - c[url].fetchedAt <= cfg.cacheTtl && c[url].hash == expected
    then Some(c[url].data) else None
  }

  // ----- The protocol -----

  /** Where one spawned task stands. */
  datatype Task =
    | Started(url: Url, expected: int)
    | NotCached(url: Url, expected: int)
    | Fetching(url: Url, expected: int)
    | Fetched(url: Url, expected: int, result: Option<seq<Byte>>)
    | Released(url: Url, expected: int, result: Option<seq<Byte>>)
    | Done
  {
    predicate InFlight() {
      Fetching? || Fetched?
    }
  }

  /** All tasks and the shared data; `overwritten` sums the sizes of entries an insert replaced. */
  datatype State = State(shared: Shared, tasks: seq<Task>, overwritten: nat)

  datatype Step =
    | Spawn(url: Url, expected: int)
    | Check(i: nat)
    | Claim(i: nat)
    | Fetch(i: nat, result: Option<seq<Byte>>)
    | Release(i: nat)
    | Discard(i: nat)
    | Insert(i: nat, now: nat, kept: Cache, size: nat)

  predicate Initial(s: State) {
    s == State(Shared(map[], 0, {}), [], 0)
  }

  ghost predicate Next(cfg: Config, s: State, step: Step, s': State) {
    match step
    case Spawn(url, expected) => s' == s.(tasks := s.tasks + [Started(url, expected)])
    case Check(i) =>
      && i < |s.tasks| && s.tasks[i].Started?
      && (var t := s.tasks[i];
         s' == s.(tasks := s.tasks[i := if t.url in s.shared.cache then Done else NotCached(t.url, t.expected)]))
    case Claim(i) =>
      && i < |s.tasks| && s.tasks[i].NotCached?
      && (var t := s.tasks[i];
         if t.url in s.shared.inProgress then s' == s.(tasks := s.tasks[i := Done])
         else s' == s.(shared := s.shared.(inProgress := s.shared.inProgress + {t.url}),
                       tasks := s.tasks[i := Fetching(t.url, t.expected)]))
    case Fetch(i, result) =>
      && i < |s.tasks| && s.tasks[i].Fetching?
      && (result.Some? ==> |result.value| <= cfg.maxInputSize)
      && (var t := s.tasks[i]; s' == s.(tasks := s.tasks[i := Fetched(t.url, t.expected, result)]))
    case Release(i) =>
      && i < |s.tasks| && s.tasks[i].Fetched?
      && (var t := s.tasks[i];
         s' == s.(shared := s.shared.(inProgress := s.shared.inProgress - {t.url}),
                  tasks := s.tasks[i := Released(t.url, t.expected, t.result)]))
    case Discard(i) =>
      && i < |s.tasks| && s.tasks[i].Released?
      && (s.tasks[i].result.None? || cfg.digest(s.tasks[i].result.value) != s.tasks[i].expected)
      && s' == s.(tasks := s.tasks[i := Done])
    case Insert(i, now, kept, size) =>
      && i < |s.tasks| && s.tasks[i].Released? && s.tasks[i].result.Some?
      && (var t := s.tasks[i];
         && cfg.digest(t.result.value) == t.expected
         && InsertsVia(cfg, s.shared, s'.shared, t.url, t.result.value, now, kept, size)
         && s'.tasks == s.tasks[i := Done]
         && s'.overwritten == s.overwritten + (if t.url in kept then kept[t.url].size else 0))
  }

  ghost predicate IsRun(cfg: Config, run: seq<State>, steps: seq<Step>) {
    && |run| == |steps| + 1
    && Initial(run[0])
    && forall k :: 0 <= k < |steps| ==> Next(cfg, run[k], steps[k], run[k + 1])
  }

  // ----- What every interleaving keeps -----

  /** The in-progress set is exactly the URLs being fetched, and no URL is being fetched twice. */
  ghost predicate OneFetchPerUrl(s: State) {
    && (forall i, j :: 0 <= i < j < |s.tasks| && s.tasks[i].InFlight() && s.tasks[j].InFlight()
          ==> s.tasks[i].url != s.tasks[j].url)
    && (forall i :: 0 <= i < |s.tasks| && s.tasks[i].InFlight() ==> s.tasks[i].url in s.shared.inProgress)
    && (forall u :: u in s.shared.inProgress ==>
          exists i :: 0 <= i < |s.tasks| && s.tasks[i].InFlight() && s.tasks[i].url == u)
  }

  /** The counter is the bytes cached plus every byte ever overwritten, to the last byte. */
  ghost predicate BytesConserved(s: State) {
    s.shared.cacheSize == CachedBytes(s.shared.cache) + s.overwritten
  }

  /** The limit holds, unless a single entry is all there is. */
  ghost predicate WithinLimit(cfg: Config, s: State) {
    s.shared.cacheSize <= cfg.maxCacheBytes || |s.shared.cache| == 1
  }

  ghost predicate Authentic(cfg: Config, c: Cache) {
    forall u :: u in c ==> c[u].hash == cfg.digest(c[u].data) && c[u].size == |c[u].data|
  }

  ghost predicate Inv(cfg: Config, s: State) {
    OneFetchPerUrl(s) && BytesConserved(s) && WithinLimit(cfg, s) && Authentic(cfg, s.shared.cache)
  }

  lemma ClaimKeepsOneFetch(cfg: Config, s: State, i: nat, s': State)
    requires OneFetchPerUrl(s) && Next(cfg, s, Claim(i), s')
    ensures OneFetchPerUrl(s')
  {
    forall u | u in s'.shared.inProgress
      ensures exists j :: 0 <= j < |s'.tasks| && s'.tasks[j].InFlight() && s'.tasks[j].url == u
    {
      if u in s.shared.inProgress {
        var j :| 0 <= j < |s.tasks| && s.tasks[j].InFlight() && s.tasks[j].url == u;
        assert s'.tasks[j].InFlight() && s'.tasks[j].url == u;
      } else {
        assert s'.tasks[i].InFlight() && s'.tasks[i].url == u;
      }
    }
  }

  lemma MoveKeepsOneFetch(s: State, s': State, i: nat)
    requires OneFetchPerUrl(s) && i < |s.tasks| && |s'.tasks| >= |s.tasks| &&
              s'.shared.inProgress == s.shared.inProgress
    requires forall j :: 0 <= j < |s.tasks| && j != i ==> s'.tasks[j] == s.tasks[j]
    requires s'.tasks[i].InFlight() == s.tasks[i].InFlight()
    requires s.tasks[i].InFlight() ==> s'.tasks[i].url == s.tasks[i].url
    requires forall j :: |s.tasks| <= j < |s'.tasks| ==> !s'.tasks[j].InFlight()
    ensures OneFetchPerUrl(s')
  {
    forall u | u in s'.shared.inProgress
      ensures exists j :: 0 <= j < |s'.tasks| && s'.tasks[j].InFlight() && s'.tasks[j].url == u
    {
      var j :| 0 <= j < |s.tasks| && s.tasks[j].InFlight() && s.tasks[j].url == u;
      assert s'.tasks[j].InFlight() && s'.tasks[j].url == u;
    }
  }

  lemma ReleaseKeepsOneFetch(cfg: Config, s: State, i: nat, s': State)
    requires OneFetchPerUrl(s) && Next(cfg, s, Release(i), s')
    ensures OneFetchPerUrl(s')
  {
    forall u | u in s'.shared.inProgress
      ensures exists j :: 0 <= j < |s'.tasks| && s'.tasks[j].InFlight() && s'.tasks[j].url == u
    {
      var j :| 0 <= j < |s.tasks| && s.tasks[j].InFlight() && s.tasks[j].url == u;
      assert s'.tasks[j].InFlight() && s'.tasks[j].url == u;
    }
  }

  lemma SpawnKeepsOneFetch(s: State, t: Task)
    requires OneFetchPerUrl(s) && !t.InFlight()
    ensures OneFetchPerUrl(s.(tasks := s.tasks + [t]))
  {
    var s' := s.(tasks := s.tasks + [t]);
    forall u | u in s'.shared.inProgress
      ensures exists j :: 0 <= j < |s'.tasks| && s'.tasks[j].InFlight() && s'.tasks[j].url == u
    {
      var j :| 0 <= j < |s.tasks| && s.tasks[j].InFlight() && s.tasks[j].url == u;
      assert s'.tasks[j].InFlight() && s'.tasks[j].url == u;
    }
  }

  lemma InsertKeepsBytes(cfg: Config, s: State, i: nat, now: nat, kept: Cache, size: nat, s': State)
    requires Inv(cfg, s) && Next(cfg, s, Insert(i, now, kept, size), s')
    ensures BytesConserved(s') && WithinLimit(cfg, s') && Authentic(cfg, s'.shared.cache)
  {
    var t := s.tasks[i];
    CachedBytesInsert(kept, t.url, Entry(t.result.value, cfg.digest(t.result.value), now, |t.result.value|));
  }

  lemma StepKeepsInv(cfg: Config, s: State, step: Step, s': State)
    requires Inv(cfg, s) && Next(cfg, s, step, s')
    ensures Inv(cfg, s')
  {
    match step
    case Spawn(url, expected) => SpawnKeepsOneFetch(s, Started(url, expected));
    case Claim(i) =>
      ClaimKeepsOneFetch(cfg, s, i, s');
    case Release(i) => ReleaseKeepsOneFetch(cfg, s, i, s');
    case Check(i) => MoveKeepsOneFetch(s, s', i);
    case Fetch(i, _) => MoveKeepsOneFetch(s, s', i);
    case Discard(i) => MoveKeepsOneFetch(s, s', i);
    case Insert(i, now, kept, size) =>
      MoveKeepsOneFetch(s, s', i);
      InsertKeepsBytes(cfg, s, i, now, kept, size, s');
  }

  /** Safety over every interleaving of any number of tasks. */
  lemma {:induction false} EveryRunSafe(cfg: Config, run: seq<State>, steps: seq<Step>, k: nat)
    requires IsRun(cfg, run, steps) && k < |run|
    ensures Inv(cfg, run[k])
    decreases k
  {
    if k > 0 {
      EveryRunSafe(cfg, run, steps, k - 1);
      StepKeepsInv(cfg, run[k - 1], steps[k - 1], run[k]);
    }
  }

  /** A step that does not touch the entry of u: it inserts nothing, or something else with u's entry kept. */
  ghost predicate LeavesAlone(s: State, step: Step, u: Url) {
    step.Insert? && step.i < |s.tasks| && s.tasks[step.i].Released? ==> s.tasks[step.i].url != u && u in step.kept
  }

  /** From the step that inserts a URL until its entry is evicted or replaced, every query under the digest of the
      bytes inserted gets exactly those bytes for as long as the time to live, and nothing after that or under
      another. */
  lemma {:induction false} InsertedIsServed(
    cfg: Config, run: seq<State>, steps: seq<Step>, m: nat, k: nat, url: Url, data: seq<Byte>, expected: int, now: nat)
    requires IsRun(cfg, run, steps) && m < k < |run| && steps[m].Insert? && steps[m].i < |run[m].tasks|
    requires run[m].tasks[steps[m].i] == Released(url, cfg.digest(data), Some(data))
    requires forall j :: m < j < k ==> LeavesAlone(run[j], steps[j], url)
    ensures url in run[k].shared.cache &&
              run[k].shared.cache[url] == Entry(data, cfg.digest(data), steps[m].now, |data|)
    ensures Lookup(cfg, run[k].shared.cache, url, expected, now) ==
            if expected == cfg.digest(data) && now <= steps[m].now + cfg.cacheTtl then Some(data) else None
    decreases k
  {
    assert Next(cfg, run[k - 1], steps[k - 1], run[k]);
    if m < k - 1 {
      InsertedIsServed(cfg, run, steps, m, k - 1, url, data, expected, now);
      assert LeavesAlone(run[k - 1], steps[k - 1], url);
    }
  }

  /** No task holds, and no entry stores, more than the largest input allowed. */
  ghost predicate SizesBounded(cfg: Config, s: State) {
    && (forall u :: u in s.shared.cache ==> |s.shared.cache[u].data| <= cfg.maxInputSize)
    && (forall i :: 0 <= i < |s.tasks| && (s.tasks[i].Fetched? || s.tasks[i].Released?) && s.tasks[i].result.Some? ==>
          |s.tasks[i].result.value| <= cfg.maxInputSize)
  }

  lemma {:induction false} EveryRunBounded(cfg: Config, run: seq<State>, steps: seq<Step>, k: nat)
    requires IsRun(cfg, run, steps) && k < |run|
    ensures SizesBounded(cfg, run[k])
  {
    if k > 0 {
      EveryRunBounded(cfg, run, steps, k - 1);
      assert Next(cfg, run[k - 1], steps[k - 1], run[k]);
    }
  }

  /** A job asked for this URL under this hash before state k. */
  ghost predicate AskedFor(steps: seq<Step>, k: nat, url: Url, expected: int) {
    exists j: nat :: j < k && j < |steps| && steps[j] == Spawn(url, expected)
  }

  lemma {:induction false} TaskWasAskedFor(cfg: Config, run: seq<State>, steps: seq<Step>, k: nat, i: nat)
    requires IsRun(cfg, run, steps) && k < |run| && i < |run[k].tasks| && !run[k].tasks[i].Done?
    ensures AskedFor(steps, k, run[k].tasks[i].url, run[k].tasks[i].expected)
    decreases k
  {
    if k > 0 {
      assert Next(cfg, run[k - 1], steps[k - 1], run[k]);
      var t := run[k].tasks[i];
      if i < |run[k - 1].tasks| {
        assert !run[k - 1].tasks[i].Done? && run[k - 1].tasks[i].url == t.url &&
            run[k - 1].tasks[i].expected == t.expected;
        TaskWasAskedFor(cfg, run, steps, k - 1, i);
      } else {
        assert steps[k - 1] == Spawn(t.url, t.expected);
      }
    }
  }

  /** Nothing is ever cached whose hash no job asked for under its URL. */
  lemma {:induction false} CachedWasAskedFor(cfg: Config, run: seq<State>, steps: seq<Step>, k: nat, url: Url)
    requires IsRun(cfg, run, steps) && k < |run| && url in run[k].shared.cache
    ensures AskedFor(steps, k, url, run[k].shared.cache[url].hash)
    decreases k
  {
    if k > 0 {
      var s, step := run[k - 1], steps[k - 1];
      assert Next(cfg, s, step, run[k]);
      if url in s.shared.cache && run[k].shared.cache[url] == s.shared.cache[url] {
        CachedWasAskedFor(cfg, run, steps, k - 1, url);
      } else {
        assert step.Insert?;
        TaskWasAskedFor(cfg, run, steps, k - 1, step.i);
      }
    }
  }

  /** A task goes on to fetch exactly when its check finds nothing cached and its claim finds nobody fetching. */
  lemma FetchesOnlyWhatIsMissing(cfg: Config, s: State, step: Step, s': State)
    requires Next(cfg, s, step, s')
    ensures step.Check? ==> (s'.tasks[step.i].Done? <==> s.tasks[step.i].url in s.shared.cache)
    ensures step.Claim? ==> (s'.tasks[step.i].Done? <==> s.tasks[step.i].url in s.shared.inProgress)
    ensures step.Claim? ==> s'.shared.inProgress == s.shared.inProgress + {s.tasks[step.i].url}
    ensures step.Release? ==> s'.shared.inProgress == s.shared.inProgress - {s.tasks[step.i].url}
    ensures step.Discard? ==>
              s.tasks[step.i].result.None? || cfg.digest(s.tasks[step.i].result.value) != s.tasks[step.i].expected
    ensures !step.Insert? ==> s'.shared.cache == s.shared.cache && s'.shared.cacheSize == s.shared.cacheSize
  {
  }

  /** Whatever is served, at any point of any run, has the digest asked for and is within its lifetime. */
  lemma ServedDataIsAuthentic(cfg: Config, run: seq<State>, steps: seq<Step>, k: nat, url: Url, expected: int, now: nat)
    requires IsRun(cfg, run, steps) && k < |run|
    ensures var r := Lookup(cfg, run[k].shared.cache, url, expected, now);
            r.Some? ==> cfg.digest(r.value) == expected && now - run[k].shared.cache[url].fetchedAt <= cfg.cacheTtl
  {
    EveryRunSafe(cfg, run, steps, k);
  }

  /** The step does not insert over an entry that eviction kept and that holds any bytes. */
  ghost predicate ReplacesNothing(s: State, step: Step) {
    step.Insert? && step.i < |s.tasks| && s.tasks[step.i].Released? ==>
      var u := s.tasks[step.i].url;
      u in step.kept ==> step.kept[u].size == 0
  }

  lemma {:induction false} OverwrittenByInserts(cfg: Config, run: seq<State>, steps: seq<Step>, k: nat)
    requires IsRun(cfg, run, steps) && k < |run|
    ensures run[k].overwritten == 0 <==> forall m :: 0 <= m < k ==> ReplacesNothing(run[m], steps[m])
    decreases k
  {
    if k > 0 {
      OverwrittenByInserts(cfg, run, steps, k - 1);
      assert Next(cfg, run[k - 1], steps[k - 1], run[k]);
      assert run[k].overwritten == 0 <==> run[k - 1].overwritten == 0 && ReplacesNothing(run[k - 1], steps[k - 1]);
    }
  }

  /** The counter is the true size exactly when no insert of the run has replaced a non-empty entry. */
  lemma CounterExact(cfg: Config, run: seq<State>, steps: seq<Step>, k: nat)
    requires IsRun(cfg, run, steps) && k < |run|
    ensures CachedBytes(run[k].shared.cache) <= run[k].shared.cacheSize
    ensures CachedBytes(run[k].shared.cache) == run[k].shared.cacheSize <==>
            forall m :: 0 <= m < k ==> ReplacesNothing(run[m], steps[m])
  {
    EveryRunSafe(cfg, run, steps, k);
    OverwrittenByInserts(cfg, run, steps, k);
  }

  ghost predicate Reaches(cfg: Config, s: State) {
    exists run, steps :: IsRun(cfg, run, steps) && run[|run| - 1] == s
  }

  lemma Extend(cfg: Config, s: State, step: Step, s': State)
    requires Reaches(cfg, s) && Next(cfg, s, step, s')
    ensures Reaches(cfg, s')
  {
    var run, steps :| IsRun(cfg, run, steps) && run[|run| - 1] == s;
    assert IsRun(cfg, run + [s'], steps + [step]);
  }

  /** Both tasks have found the cache empty. */
  lemma BothChecked(cfg: Config, u: Url) returns (s: State)
    ensures Reaches(cfg, s) && s == State(Shared(map[], 0, {}), [NotCached(u, 0), NotCached(u, 0)], 0)
  {
    var idle := Shared(map[], 0, {});
    var s0 := State(idle, [], 0);
    assert IsRun(cfg, [s0], []);
    var s1 := State(idle, [Started(u, 0)], 0);
    Extend(cfg, s0, Spawn(u, 0), s1);
    var s2 := State(idle, [Started(u, 0), Started(u, 0)], 0);
    Extend(cfg, s1, Spawn(u, 0), s2);
    var s3 := State(idle, [NotCached(u, 0), Started(u, 0)], 0);
    Extend(cfg, s2, Check(0), s3);
    s := State(idle, [NotCached(u, 0), NotCached(u, 0)], 0);
    Extend(cfg, s3, Check(1), s);
  }

  /** The first has fetched and released, and the second claims. */
  lemma SecondClaims(cfg: Config, u: Url, d: Option<seq<Byte>>) returns (s: State)
    requires d.Some? ==> |d.value| <= cfg.maxInputSize
    ensures Reaches(cfg, s) && s == State(Shared(map[], 0, {u}), [Released(u, 0, d), Fetching(u, 0)], 0)
  {
    var s0 := BothChecked(cfg, u);
    var s1 := State(Shared(map[], 0, {u}), [Fetching(u, 0), NotCached(u, 0)], 0);
    assert {} + {u} == {u};
    Extend(cfg, s0, Claim(0), s1);
    var s2 := State(Shared(map[], 0, {u}), [Fetched(u, 0, d), NotCached(u, 0)], 0);
    Extend(cfg, s1, Fetch(0, d), s2);
    var s3 := State(Shared(map[], 0, {}), [Released(u, 0, d), NotCached(u, 0)], 0);
    assert {u} - {u} == {};
    Extend(cfg, s2, Release(0), s3);
    s := State(Shared(map[], 0, {u}), [Released(u, 0, d), Fetching(u, 0)], 0);
    Extend(cfg, s3, Claim(1), s);
  }

  /** Two tasks for one URL can both fetch: the second checks the cache before the first inserts and claims
      after the first releases. The counter then stays above the true size. */
  lemma CounterCanDrift() returns (cfg: Config, s: State)
    ensures Reaches(cfg, s) && s.shared.cacheSize > CachedBytes(s.shared.cache)
  {
    cfg := Config(10, 10, 10, d => 0);
    var u, d := "u", Some([7]);
    var one: Cache := map[u := Entry([7], 0, 0, 1)];
    var s0 := SecondClaims(cfg, u, d);
    var s1 := State(Shared(one, 1, {u}), [Done, Fetching(u, 0)], 0);
    Extend(cfg, s0, Insert(0, 0, map[], 0), s1);
    var s2 := State(Shared(one, 1, {u}), [Done, Fetched(u, 0, d)], 0);
    Extend(cfg, s1, Fetch(1, d), s2);
    var s3 := State(Shared(one, 1, {}), [Done, Released(u, 0, d)], 0);
    assert {u} - {u} == {};
    Extend(cfg, s2, Release(1), s3);
    s := State(Shared(one, 2, {}), [Done, Done], 1);
    assert one[u := Entry([7], 0, 0, 1)] == one;
    Extend(cfg, s3, Insert(1, 0, one, 1), s);
    CachedBytesInsert(map[], u, Entry([7], 0, 0, 1));
    assert map[][u := Entry([7], 0, 0, 1)] == one;
  }
}
