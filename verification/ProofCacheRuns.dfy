/** The proof cache over whole runs: interleaved calls, and what stays in memory. */
module ProofCacheRuns {
  import opened Basics
  import opened Sums
  import opened ProofCacheKeys
  import opened ProofCache

  // ----- Recency -----

  /** One section that takes the memory lock without dropping expired entries. */
  datatype MemoryStep = Touch(key: Key, tick: nat) | Insert(key: Key, proof: CachedProof, tick: nat, kept: Memory)

  /** The memory and, for every key ever touched, when it was last touched. */
  datatype Recency = Recency(memory: Memory, touched: map<Key, nat>)

  ghost predicate MemoryNext(cap: nat, s: Recency, step: MemoryStep, s': Recency) {
    && (forall k :: k in s.touched ==> s.touched[k] < step.tick)
    && s'.touched == s.touched[step.key := step.tick]
    && match step
       case Touch(k, tick) =>
         k in s.memory && s'.memory == s.memory[k := CacheEntry(s.memory[k].proof, tick, s.memory[k].accessCount + 1)]
       case Insert(k, p, tick, kept) =>
         KeepsRecent(cap, s.memory, kept) && s'.memory == kept[k := CacheEntry(p, tick, 1)]
  }

  /** The keys in memory are the most recently touched ones, and no more than max(1, capacity) of them. */
  ghost predicate MostRecent(cap: nat, s: Recency) {
    && (forall k :: k in s.memory ==> k in s.touched && s.memory[k].lastAccessed == s.touched[k])
    && (forall a, b :: a in s.memory && b in s.touched && b !in s.memory ==> s.touched[b] < s.touched[a])
    && (forall a, b :: a in s.touched && b in s.touched && a != b ==> s.touched[a] != s.touched[b])
    && |s.memory| <= (if cap == 0 then 1 else cap)
  }

  lemma AddedSize(m: Memory, k: Key, e: CacheEntry)
    ensures |m[k := e]| <= |m| + 1
    ensures k in m ==> |m[k := e]| == |m|
  {
    assert m[k := e].Keys == m.Keys + {k};
    if k in m { assert m[k := e].Keys == m.Keys; }
  }

  lemma EvictionKeepsRecent(cap: nat, s: Recency, kept: Memory)
    requires MostRecent(cap, s) && KeepsRecent(cap, s.memory, kept)
    ensures MostRecent(cap, Recency(kept, s.touched))
  {
    forall a, b | a in kept && b in s.touched && b !in kept ensures s.touched[b] < s.touched[a] {
      if b in s.memory { assert s.memory[b].lastAccessed <= s.memory[a].lastAccessed; }
    }
  }

  lemma NewestKeepsRecent(cap: nat, s: Recency, k: Key, e: CacheEntry)
    requires MostRecent(cap, s)
    requires forall j :: j in s.touched ==> s.touched[j] < e.lastAccessed
    requires |s.memory[k := e]| <= if cap == 0 then 1 else cap
    ensures MostRecent(cap, Recency(s.memory[k := e], s.touched[k := e.lastAccessed]))
  {
    var m, t := s.memory[k := e], s.touched[k := e.lastAccessed];
    forall a, b | a in m && b in t && b !in m ensures t[b] < t[a] {
      assert b != k && b in s.touched && t[b] == s.touched[b];
      if a != k { assert a in s.memory && t[a] == s.touched[a]; }
    }
    forall a, b | a in t && b in t && a != b ensures t[a] != t[b] {
      if a != k && b != k { assert s.touched[a] != s.touched[b]; }
    }
  }

  lemma MemoryStepKeepsRecent(cap: nat, s: Recency, step: MemoryStep, s': Recency)
    requires MostRecent(cap, s) && MemoryNext(cap, s, step, s')
    ensures MostRecent(cap, s')
  {
    match step
    case Touch(k, tick) =>
      AddedSize(s.memory, k, s'.memory[k]);
      NewestKeepsRecent(cap, s, k, s'.memory[k]);
    case Insert(k, p, tick, kept) =>
      EvictionKeepsRecent(cap, s, kept);
      AddedSize(kept, k, s'.memory[k]);
      NewestKeepsRecent(cap, Recency(kept, s.touched), k, s'.memory[k]);
  }

  /** In every run without expiry memory holds the most recently touched keys, even when a present key is put again. */
  lemma {:induction false} AlwaysMostRecent(cap: nat, run: seq<Recency>, steps: seq<MemoryStep>, i: nat)
    requires |run| == |steps| + 1 && run[0] == Recency(map[], map[]) && i < |run|
    requires forall j :: 0 <= j < |steps| ==> MemoryNext(cap, run[j], steps[j], run[j + 1])
    ensures MostRecent(cap, run[i])
  {
    if i > 0 {
      AlwaysMostRecent(cap, run, steps, i - 1);
      MemoryStepKeepsRecent(cap, run[i - 1], steps[i - 1], run[i]);
    }
  }

  // ----- Interleaved calls -----

  /** Where a call stands between two lock sections. */
  datatype Call =
    | GetStarted(key: Key)
    | GetMissedMemory(key: Key)
    | GetFoundOnDisk(key: Key, proof: CachedProof, at: nat)
    | GetAnswered(key: Key, answer: Option<CachedProof>, at: nat)
    | PutStarted(key: Key, proof: CachedProof)
    | PutInMemory(key: Key, proof: CachedProof)
    | PutFinished

  datatype Config = Config(capacity: nat, hasDisk: bool, ttl: nat)

  /** `puts` is every (key, proof) a put has been called with or the directory held at the start. */
  datatype State = State(memory: Memory, disk: map<Key, DiskFile>, hits: nat, misses: nat, calls: seq<Call>,
    puts: set<(Key, CachedProof)>)

  datatype Step =
    | CallGet(key: Key)
    | CallPut(key: Key, proof: CachedProof)
    | LookInMemory(i: nat, now: nat, tick: nat)
    | LookOnDisk(i: nat, now: nat, readable: bool)
    | Promote(i: nat, tick: nat, kept: Memory)
    | StoreInMemory(i: nat, tick: nat, kept: Memory)
    | StoreOnDisk(i: nat, outcome: WriteOutcome)
    | CleanMemory(now: nat)
    | CleanFile(key: Key)

  /** The directory may hold files from before. */
  predicate Initial(s: State) {
    s == State(map[], s.disk, 0, 0, [], PairsOf(ProofsIn(s.disk)))
  }

  ghost predicate Next(cfg: Config, s: State, step: Step, s': State) {
    match step
    case CallGet(k) => s' == s.(calls := s.calls + [GetStarted(k)])
    case CallPut(k, p) => s' == s.(calls := s.calls + [PutStarted(k, p)], puts := s.puts + {(k, p)})
    case LookInMemory(i, now, tick) =>
      && i < |s.calls| && s.calls[i].GetStarted?
      && (var k := s.calls[i].key;
         if k in s.memory && Live(s.memory[k].proof, now, cfg.ttl) then
           s' == s.(memory := s.memory[k := CacheEntry(s.memory[k].proof, tick, s.memory[k].accessCount + 1)],
                    hits := s.hits + 1, calls := s.calls[i := GetAnswered(k, Some(s.memory[k].proof), now)])
         else s' == s.(memory := s.memory - {k}, calls := s.calls[i := GetMissedMemory(k)]))
    case LookOnDisk(i, now, readable) =>
      && i < |s.calls| && s.calls[i].GetMissedMemory?
      && (var k := s.calls[i].key;
         if cfg.hasDisk && readable && k in s.disk && s.disk[k].Good? && Live(s.disk[k].proof, now, cfg.ttl) then
           s' == s.(calls := s.calls[i := GetFoundOnDisk(k, s.disk[k].proof, now)])
         else s' == s.(misses := s.misses + 1, calls := s.calls[i := GetAnswered(k, None, now)]))
    case Promote(i, tick, kept) =>
      && i < |s.calls| && s.calls[i].GetFoundOnDisk?
      && (var c := s.calls[i];
         && KeepsRecent(cfg.capacity, s.memory, kept)
         && s' == s.(memory := kept[c.key := CacheEntry(c.proof, tick, 1)], hits := s.hits + 1,
                     calls := s.calls[i := GetAnswered(c.key, Some(c.proof), c.at)]))
    case StoreInMemory(i, tick, kept) =>
      && i < |s.calls| && s.calls[i].PutStarted?
      && (var c := s.calls[i];
         && KeepsRecent(cfg.capacity, s.memory, kept)
         && s' == s.(memory := kept[c.key := CacheEntry(c.proof, tick, 1)],
             calls := s.calls[i := PutInMemory(c.key, c.proof)]))
    case StoreOnDisk(i, outcome) =>
      && i < |s.calls| && s.calls[i].PutInMemory?
      && (var c := s.calls[i];
         s' == s.(calls := s.calls[i := PutFinished],
                  disk := if !cfg.hasDisk || outcome.LeftUnchanged? then s.disk
                          else s.disk[c.key := if outcome.Wrote? then Good(c.proof) else Corrupt]))
    case CleanMemory(now) =>
      s' == s.(memory := map k | k in s.memory && Age(s.memory[k].proof, now) < cfg.ttl / NANOS :: s.memory[k])
    case CleanFile(k) => s' == s.(disk := s.disk - {k})
  }

  /** What a get finds: in memory exactly a proof within its lifetime, dropping one that is not, and then in the
      directory exactly a readable one within its lifetime; otherwise it is a miss. */
  lemma AnswersMean(cfg: Config, s: State, step: Step, s': State)
    requires Next(cfg, s, step, s') && (step.LookInMemory? || step.LookOnDisk?)
    ensures var k, now, c := s.calls[step.i].key, step.now, s'.calls[step.i];
            && (step.LookInMemory? && k in s.memory ==>
                var p := s.memory[k].proof;
                var live := now <= p.generatedAt || (now - p.generatedAt) * 1_000_000_000 <= cfg.ttl;
                && (live ==> c == GetAnswered(k, Some(p), now) && s'.hits == s.hits + 1 && k in s'.memory)
                && (!live ==> c == GetMissedMemory(k) && s'.hits == s.hits && k !in s'.memory))
            && (step.LookInMemory? && k !in s.memory ==> c == GetMissedMemory(k) && s'.memory == s.memory)
            && (step.LookOnDisk? && cfg.hasDisk && step.readable && k in s.disk && s.disk[k].Good? ==>
                var p := s.disk[k].proof;
                var live := now <= p.generatedAt || (now - p.generatedAt) * 1_000_000_000 <= cfg.ttl;
                && (live ==> c == GetFoundOnDisk(k, p, now) && s'.misses == s.misses)
                && (!live ==> c == GetAnswered(k, None, now) && s'.misses == s.misses + 1))
            && (step.LookOnDisk? && (!cfg.hasDisk || !step.readable || k !in s.disk || s.disk[k].Corrupt?) ==>
                c == GetAnswered(k, None, now) && s'.misses == s.misses + 1)
  {
    var k := s.calls[step.i].key;
    if k in s.memory { LiveMeans(s.memory[k].proof, step.now, cfg.ttl); }
    if k in s.disk && s.disk[k].Good? { LiveMeans(s.disk[k].proof, step.now, cfg.ttl); }
  }

  ghost predicate IsRun(cfg: Config, run: seq<State>, steps: seq<Step>) {
    && |run| == |steps| + 1
    && Initial(run[0])
    && forall j :: 0 <= j < |steps| ==> Next(cfg, run[j], steps[j], run[j + 1])
  }

  const IsAnswer: Call -> bool := (c: Call) => c.GetAnswered?

  function Answered(calls: seq<Call>): nat {
    Count(calls, IsAnswer)
  }

  /** Whatever a call holds or has answered was put under its key; an answer was live when it was found. */
  ghost predicate Traced(cfg: Config, puts: set<(Key, CachedProof)>, c: Call) {
    match c
    case GetFoundOnDisk(k, p, at) => (k, p) in puts && Live(p, at, cfg.ttl)
    case GetAnswered(k, Some(p), at) => (k, p) in puts && Live(p, at, cfg.ttl)
    case PutStarted(k, p) => (k, p) in puts
    case PutInMemory(k, p) => (k, p) in puts
    case _ => true
  }

  ghost predicate Inv(cfg: Config, s: State) {
    && AllPut(s.puts, s.memory, s.disk)
    && (forall i :: 0 <= i < |s.calls| ==> Traced(cfg, s.puts, s.calls[i]))
    && s.hits + s.misses == Answered(s.calls)
  }

  /** Everything held in memory and on disk was put. */
  ghost predicate AllPut(puts: set<(Key, CachedProof)>, memory: Memory, disk: map<Key, DiskFile>) {
    && (forall k :: k in memory ==> (k, memory[k].proof) in puts)
    && (forall k :: k in disk && disk[k].Good? ==> (k, disk[k].proof) in puts)
  }

  /** One call moves on to c. */
  lemma CallMoves(cfg: Config, s: State, i: nat, c: Call, s': State)
    requires Inv(cfg, s) && i < |s.calls| && !s.calls[i].GetAnswered?
    requires s'.calls == s.calls[i := c] && s'.puts == s.puts
    requires AllPut(s.puts, s'.memory, s'.disk) && Traced(cfg, s.puts, c)
    requires s'.hits + s'.misses == s.hits + s.misses + if c.GetAnswered? then 1 else 0
    ensures Inv(cfg, s')
  {
    CountUpdate(s.calls, i, c, IsAnswer);
  }

  lemma LookKeepsInv(cfg: Config, s: State, step: Step, s': State)
    requires Inv(cfg, s) && Next(cfg, s, step, s')
    requires step.LookInMemory? || step.LookOnDisk?
    ensures Inv(cfg, s')
  {
    assert Traced(cfg, s.puts, s.calls[step.i]);
    CallMoves(cfg, s, step.i, s'.calls[step.i], s');
  }

  lemma StoreKeepsInv(cfg: Config, s: State, step: Step, s': State)
    requires Inv(cfg, s) && Next(cfg, s, step, s')
    requires step.Promote? || step.StoreInMemory? || step.StoreOnDisk?
    ensures Inv(cfg, s')
  {
    assert Traced(cfg, s.puts, s.calls[step.i]);
    CallMoves(cfg, s, step.i, s'.calls[step.i], s');
  }

  lemma CallStepKeepsInv(cfg: Config, s: State, step: Step, s': State)
    requires Inv(cfg, s) && Next(cfg, s, step, s')
    requires step.CallGet? || step.CallPut?
    ensures Inv(cfg, s')
  {
    CountAppend(s.calls, s'.calls[|s.calls|], IsAnswer);
  }

  lemma StepKeepsInv(cfg: Config, s: State, step: Step, s': State)
    requires Inv(cfg, s) && Next(cfg, s, step, s')
    ensures Inv(cfg, s')
  {
    if step.CallGet? || step.CallPut? {
      CallStepKeepsInv(cfg, s, step, s');
    } else if step.LookInMemory? || step.LookOnDisk? {
      LookKeepsInv(cfg, s, step, s');
    } else if !step.CleanMemory? && !step.CleanFile? {
      StoreKeepsInv(cfg, s, step, s');
    }
  }

  lemma {:induction false} EveryRunKeepsInv(cfg: Config, run: seq<State>, steps: seq<Step>, j: nat)
    requires IsRun(cfg, run, steps) && j < |run|
    ensures Inv(cfg, run[j])
  {
    if j > 0 {
      EveryRunKeepsInv(cfg, run, steps, j - 1);
      StepKeepsInv(cfg, run[j - 1], steps[j - 1], run[j]);
    } else {
      var files := run[0].disk;
      forall k | k in files && files[k].Good? ensures (k, files[k].proof) in PairsOf(ProofsIn(files)) {
        assert ProofsIn(files)[k] == files[k].proof;
      }
    }
  }

  /** Over every interleaving of gets, puts and cleanups: each hit is a proof that was put under exactly that key,
      or that the directory held under it at the start, and was within the time to live; and hits plus misses is the
      number of answered gets. */
  lemma EveryHitWasPut(cfg: Config, run: seq<State>, steps: seq<Step>, j: nat, i: nat)
    requires IsRun(cfg, run, steps) && j < |run| && i < |run[j].calls|
    ensures var c := run[j].calls[i];
            c.GetAnswered? && c.answer.Some? ==>
              && KnownBefore(run, steps, j, c.key, c.answer.value)
              && (c.at <= c.answer.value.generatedAt || (c.at - c.answer.value.generatedAt) * 1_000_000_000 <= cfg.ttl)
    ensures run[j].hits + run[j].misses == Answered(run[j].calls)
  {
    EveryRunKeepsInv(cfg, run, steps, j);
    var c := run[j].calls[i];
    assert Traced(cfg, run[j].puts, c);
    if c.GetAnswered? && c.answer.Some? {
      PutEarlier(cfg, run, steps, j, c.key, c.answer.value);
      LiveMeans(c.answer.value, c.at, cfg.ttl);
    }
  }

  /** p was put under k before state j, or was in the directory from the start. */
  ghost predicate KnownBefore(run: seq<State>, steps: seq<Step>, j: nat, k: Key, p: CachedProof)
    requires |run| > 0
  {
    || (k in run[0].disk && run[0].disk[k] == Good(p))
    || (exists m: nat :: m < j && m < |steps| && steps[m] == CallPut(k, p))
  }

  lemma {:induction false} PutEarlier(cfg: Config, run: seq<State>, steps: seq<Step>, j: nat, k: Key, p: CachedProof)
    requires IsRun(cfg, run, steps) && j < |run| && (k, p) in run[j].puts
    ensures KnownBefore(run, steps, j, k, p)
    decreases j
  {
    if j > 0 {
      assert Next(cfg, run[j - 1], steps[j - 1], run[j]);
      if (k, p) in run[j - 1].puts {
        PutEarlier(cfg, run, steps, j - 1, k, p);
      } else {
        assert steps[j - 1] == CallPut(k, p);
      }
    }
  }
}
