/** The proof cache: an LRU memory over an optional disk directory, with a time to live. */
module ProofCache {
  import opened Basics
  import opened ProofCacheKeys

  datatype CachedProof = CachedProof(proof: seq<Byte>, journal: seq<Byte>, cycles: nat, generatedAt: nat,
    proofTimeMs: nat)

  datatype CacheEntry = CacheEntry(proof: CachedProof, lastAccessed: nat, accessCount: nat)

  type Memory = map<Key, CacheEntry>

  /** A file holds a proof, or bytes that do not deserialize. */
  datatype DiskFile = Good(proof: CachedProof) | Corrupt

  /** What became of writing a file. */
  datatype WriteOutcome = Wrote | LeftUnchanged | LeftCorrupt

  const NANOS: nat := 1_000_000_000

  function Age(p: CachedProof, now: nat): nat {
    if now <= p.generatedAt then 0 else now - p.generatedAt
  }

  /** Age in whole seconds against a time to live in nanoseconds. */
  predicate Live(p: CachedProof, now: nat, ttl: nat) {
    Age(p, now) * NANOS <= ttl
  }

  /** The proofs that can be read from files. */
  function ProofsIn(files: map<Key, DiskFile>): map<Key, CachedProof> {
    map k | k in files && files[k].Good? :: files[k].proof
  }

  function PairsOf(m: map<Key, CachedProof>): set<(Key, CachedProof)> {
    set k | k in m :: (k, m[k])
  }

  /** The same in seconds: a proof is within its lifetime up to and including the whole time to live. */
  lemma LiveMeans(p: CachedProof, now: nat, ttl: nat)
    ensures Live(p, now, ttl) <==> now <= p.generatedAt || (now - p.generatedAt) * 1_000_000_000 <= ttl
    ensures Live(p, now, ttl) <==> now <= p.generatedAt || now - p.generatedAt <= ttl / 1_000_000_000
  {
    WholeSeconds(Age(p, now), ttl);
  }

  // ----- LRU eviction -----

  predicate LeastRecent(m: Memory, k: Key) {
    k in m && forall j :: j in m ==> m[k].lastAccessed <= m[j].lastAccessed
  }

  /** What eviction keeps: all but the least recently used, with room for one more. */
  ghost predicate KeepsRecent(cap: nat, m: Memory, kept: Memory) {
    && kept.Keys <= m.Keys
    && (forall k :: k in kept ==> kept[k] == m[k])
    && (forall r, k :: r in m && r !in kept && k in kept ==> m[r].lastAccessed <= m[k].lastAccessed)
    && |kept| == if |m| < cap then |m| else if cap == 0 then 0 else cap - 1
  }

  class ProofCache {
    const maxMemoryEntries: nat
    const hasDisk: bool
    const ttl: nat
    var memory: Memory
    /** The directory, a file by the key it is named after (names are distinct, see FileNamesDistinct). */
    var disk: map<Key, DiskFile>
    var hits: nat
    var misses: nat
    var inserts: nat
    var evictions: nat
    var diskHits: nat
    /** The latest proof put under each key, every proof ever put, and the latest time seen. What the directory held
        at the start counts as put. */
    ghost var latest: map<Key, CachedProof>
    ghost var puts: set<(Key, CachedProof)>
    ghost var clock: nat
    ghost var gets: nat
    /** No disk write has failed so far. */
    ghost var reliable: bool

    /** A proof that may be served for k: put under k, and the latest such while disk writes succeed. */
    ghost predicate Faithful(k: Key, p: CachedProof)
      reads this`latest, this`puts, this`reliable
    {
      k in latest && (k, p) in puts && (reliable ==> p == latest[k])
    }

    ghost predicate MemoryFaithful()
      reads this`memory, this`latest, this`puts, this`reliable
    {
      forall k :: k in memory ==> Faithful(k, memory[k].proof)
    }

    ghost predicate DiskFaithful()
      reads this`disk, this`latest, this`puts, this`reliable
    {
      forall k :: k in disk && disk[k].Good? ==> Faithful(k, disk[k].proof)
    }

    /** While disk writes succeed, no live proof is missing from the disk. */
    ghost predicate DiskComplete()
      reads this`disk, this`latest, this`reliable, this`clock
    {
      hasDisk && reliable ==>
        forall k :: k in latest && Live(latest[k], clock, ttl) ==> k in disk && disk[k] == Good(latest[k])
    }

    ghost predicate Valid()
      reads this
    {
      && MemoryFaithful() && DiskFaithful() && DiskComplete()
      && (forall k :: k in latest ==> (k, latest[k]) in puts)
      && (!hasDisk ==> disk == map[])
      && hits + misses == gets
    }

    /** The directory may hold files from before: the proofs in them count as put. */
    constructor (maxMemoryEntries: nat, files: Option<map<Key, DiskFile>>, ttl: nat)
      ensures Valid() && this.maxMemoryEntries == maxMemoryEntries && hasDisk == files.Some? && this.ttl == ttl
      ensures memory == map[] && disk == (if files.Some? then files.value else map[])
      ensures latest == ProofsIn(disk) && puts == PairsOf(latest)
      ensures hits == misses == gets == 0 && reliable && clock == 0
    {
      this.maxMemoryEntries, this.hasDisk, this.ttl := maxMemoryEntries, files.Some?, ttl;
      memory, hits, misses, inserts, evictions, diskHits := map[], 0, 0, 0, 0, 0;
      var inherited := if files.Some? then files.value else map[];
      disk := inherited;
      latest, puts, clock, gets, reliable := ProofsIn(inherited), PairsOf(ProofsIn(inherited)), 0, 0, true;
    }

    method LeastRecentKey() returns (k: Key)
      requires memory != map[]
      ensures LeastRecent(memory, k)
    {
      k := LeastKey(memory, (e: CacheEntry) => e.lastAccessed);
    }

    /** Evict down to room for one, then insert. */
    method InsertMemory(key: Key, proof: CachedProof, tick: nat) returns (ghost kept: Memory)
      modifies this`memory, this`evictions
      ensures KeepsRecent(maxMemoryEntries, old(memory), kept)
      ensures |old(memory)| < maxMemoryEntries ==> kept == old(memory)
      ensures |old(memory)| >= maxMemoryEntries > 0 ==> |kept| == maxMemoryEntries - 1
      ensures forall r, k :: r in old(memory) && r !in kept && k in kept ==>
                old(memory)[r].lastAccessed <= old(memory)[k].lastAccessed
      ensures memory == kept[key := CacheEntry(proof, tick, 1)]
      ensures evictions == old(evictions) + |old(memory)| - |kept|
    {
      while |memory| >= maxMemoryEntries && memory != map[]
        invariant memory.Keys <= old(memory).Keys && forall k :: k in memory ==> memory[k] == old(memory)[k]
        invariant forall r, k :: r in old(memory) && r !in memory && k in memory ==>
                    old(memory)[r].lastAccessed <= old(memory)[k].lastAccessed
        invariant memory != old(memory) ==> |memory| + 1 >= maxMemoryEntries && |old(memory)| >= maxMemoryEntries
        invariant evictions == old(evictions) + |old(memory)| - |memory|
        decreases |memory|
      {
        var k := LeastRecentKey();
        ghost var before := memory;
        memory := memory - {k};
        assert before.Keys == memory.Keys + {k};
        assert |before| == |memory| + 1;
        evictions := evictions + 1;
      }
      kept := memory;
      memory := memory[key := CacheEntry(proof, tick, 1)];
    }

    /** What a plain map with a time to live would answer. */
    ghost function PlainAnswer(key: Key, now: nat): Option<CachedProof>
      reads this`latest
    {
      if key in latest && Live(latest[key], now, ttl) then Some(latest[key]) else None
    }

    /** A hit is always a live proof put under this very key. While disk writes succeed it is the latest put, and
        with a disk that can be read the answer is exactly the plain map's. Every call counts one hit or one miss. */
    method Get(key: Key, now: nat, tick: nat, readable: bool) returns (r: Option<CachedProof>)
      requires Valid() && clock <= now
      modifies this`memory, this`evictions, this`hits, this`misses, this`diskHits, this`clock, this`gets
      ensures Valid() && clock == now && gets == old(gets) + 1
      ensures r.Some? ==> (key, r.value) in puts
      ensures r.Some? ==> now <= r.value.generatedAt || (now - r.value.generatedAt) * 1_000_000_000 <= ttl
      ensures key in old(memory) ==>
                var p := old(memory)[key].proof;
                now <= p.generatedAt || (now - p.generatedAt) * 1_000_000_000 <= ttl ==> r == Some(p)
      ensures r.Some? && !(key in old(memory) && r.value == old(memory)[key].proof) ==>
                hasDisk && readable && key in disk && disk[key] == Good(r.value)
      ensures hasDisk && readable && key in disk && disk[key].Good? ==>
                var p := disk[key].proof;
                now <= p.generatedAt || (now - p.generatedAt) * 1_000_000_000 <= ttl ==> r.Some?
      ensures r.Some? && reliable ==> key in latest && r == Some(latest[key])
      ensures hasDisk && readable && reliable && key in latest ==>
                var p := latest[key];
                r.Some? <==> now <= p.generatedAt || (now - p.generatedAt) * 1_000_000_000 <= ttl
      ensures r.Some? ==> hits == old(hits) + 1 && misses == old(misses)
      ensures r.None? ==> hits == old(hits) && misses == old(misses) + 1
    {
      r := Look(key, now, tick, readable);
      if r.Some? { LiveMeans(r.value, now, ttl); }
      if key in old(memory) { LiveMeans(old(memory)[key].proof, now, ttl); }
      if key in disk && disk[key].Good? { LiveMeans(disk[key].proof, now, ttl); }
      if key in latest { LiveMeans(latest[key], now, ttl); }
    }

    /** Memory first, then the directory. */
    method Look(key: Key, now: nat, tick: nat, readable: bool) returns (r: Option<CachedProof>)
      requires Valid() && clock <= now
      modifies this`memory, this`evictions, this`hits, this`misses, this`diskHits, this`clock, this`gets
      ensures Valid() && clock == now && gets == old(gets) + 1
      ensures r.Some? ==> (key, r.value) in puts && Live(r.value, now, ttl)
      ensures r.Some? && reliable ==> r == PlainAnswer(key, now)
      ensures hasDisk && readable && reliable ==> r == PlainAnswer(key, now)
      ensures r == if key in old(memory) && Live(old(memory)[key].proof, now, ttl) then Some(old(memory)[key].proof)
                   else if hasDisk && readable && key in disk && disk[key].Good? && Live(disk[key].proof, now, ttl)
                   then Some(disk[key].proof) else None
      ensures r.Some? ==> hits == old(hits) + 1 && misses == old(misses)
      ensures r.None? ==> hits == old(hits) && misses == old(misses) + 1
    {
      clock, gets := now, gets + 1;
      r := GetFromMemory(key, now, tick);
      if r.Some? { return; }
      if hasDisk {
        r := GetFromDisk(key, now, tick, readable);
        if r.Some? { return; }
      }
      misses := misses + 1;
    }

    /** The memory section: a live entry is touched and served, an expired one is dropped. */
    method GetFromMemory(key: Key, now: nat, tick: nat) returns (r: Option<CachedProof>)
      requires MemoryFaithful()
      modifies this`memory, this`hits
      ensures MemoryFaithful()
      ensures r == if key in old(memory) && Live(old(memory)[key].proof, now, ttl)
                   then Some(old(memory)[key].proof) else None
      ensures r.Some? ==> Faithful(key, r.value) && hits == old(hits) + 1
      ensures r.Some? ==> memory == old(memory)[key := CacheEntry(r.value, tick, old(memory)[key].accessCount + 1)]
      ensures r.None? ==> memory == old(memory) - {key} && hits == old(hits)
    {
      if key in memory {
        var entry := memory[key];
        if !Live(entry.proof, now, ttl) {
          memory := memory - {key};
        } else {
          memory := memory[key := CacheEntry(entry.proof, tick, entry.accessCount + 1)];
          hits := hits + 1;
          return Some(entry.proof);
        }
      }
      assert memory == old(memory) - {key};
      return None;
    }

    /** The disk section: a live proof is promoted to memory and served. */
    method GetFromDisk(key: Key, now: nat, tick: nat, readable: bool) returns (r: Option<CachedProof>)
      requires MemoryFaithful() && DiskFaithful()
      modifies this`memory, this`evictions, this`hits, this`diskHits
      ensures MemoryFaithful()
      ensures r == if readable && key in disk && disk[key].Good? && Live(disk[key].proof, now, ttl)
                   then Some(disk[key].proof) else None
      ensures r.Some? ==> Faithful(key, r.value) && hits == old(hits) + 1
      ensures r.None? ==> hits == old(hits) && memory == old(memory)
    {
      if readable && key in disk && disk[key].Good? {
        var proof := disk[key].proof;
        if Live(proof, now, ttl) {
          ghost var kept := InsertMemory(key, proof, tick);
          hits := hits + 1;
          diskHits := diskHits + 1;
          return Some(proof);
        }
      }
      return None;
    }

    /** Put makes the proof the latest under its key, whatever becomes of the disk write. */
    method Put(key: Key, proof: CachedProof, tick: nat, outcome: WriteOutcome)
      requires Valid()
      modifies this`memory, this`evictions, this`disk, this`inserts, this`latest, this`puts, this`reliable
      ensures Valid() && latest == old(latest)[key := proof] && puts == old(puts) + {(key, proof)}
      ensures reliable == (old(reliable) && (hasDisk ==> outcome == Wrote))
      ensures inserts == old(inserts) + 1 && key in memory && memory[key] == CacheEntry(proof, tick, 1)
    {
      PutInMemory(key, proof, tick, !hasDisk || outcome == Wrote);
      if hasDisk { SaveToDisk(key, proof, outcome); }
      inserts := inserts + 1;
    }

    method PutInMemory(key: Key, proof: CachedProof, tick: nat, ghost wrote: bool)
      requires MemoryFaithful()
      modifies this`memory, this`evictions, this`latest, this`puts, this`reliable
      ensures MemoryFaithful() && key in memory && memory[key] == CacheEntry(proof, tick, 1)
      ensures latest == old(latest)[key := proof] && puts == old(puts) + {(key, proof)} &&
                reliable == (old(reliable) && wrote)
      ensures forall k, p :: old(Faithful(k, p)) && (k != key || !wrote) ==> Faithful(k, p)
      ensures Faithful(key, proof)
    {
      ghost var kept := InsertMemory(key, proof, tick);
      Record(key, proof, wrote);
    }

    /** Ghost bookkeeping of a put: what was already held stays faithful, except under this key. */
    ghost method Record(key: Key, proof: CachedProof, wrote: bool)
      modifies this`latest, this`puts, this`reliable
      ensures latest == old(latest)[key := proof] && puts == old(puts) + {(key, proof)} &&
                reliable == (old(reliable) && wrote)
      ensures forall k, p :: old(Faithful(k, p)) && (k != key || !wrote) ==> Faithful(k, p)
      ensures Faithful(key, proof)
    {
      latest, puts := latest[key := proof], puts + {(key, proof)};
      reliable := reliable && wrote;
    }

    method SaveToDisk(key: Key, proof: CachedProof, outcome: WriteOutcome)
      modifies this`disk
      ensures disk == match outcome
                      case Wrote => old(disk)[key := Good(proof)]
                      case LeftUnchanged => old(disk)
                      case LeftCorrupt => old(disk)[key := Corrupt]
    {
      match outcome
      case Wrote => disk := disk[key := Good(proof)];
      case LeftUnchanged =>
      case LeftCorrupt => disk := disk[key := Corrupt];
    }

    /** Drops the memory entries that have reached the time to live, and no others. */
    method CleanupExpired(now: nat) returns (removed: nat)
      requires Valid() && clock <= now
      modifies this`memory, this`clock
      ensures Valid() && clock == now
      ensures memory.Keys <= old(memory).Keys && removed == |old(memory)| - |memory|
      ensures forall k :: k in old(memory) ==>
                (k in memory ==> memory[k] == old(memory)[k]) &&
                (k in memory <==>
                 ttl >= 1_000_000_000 && now < old(memory)[k].proof.generatedAt + ttl / 1_000_000_000)
    {
      clock := now;
      var retained := map k | k in memory && Age(memory[k].proof, now) < ttl / NANOS :: memory[k];
      assert retained.Keys <= memory.Keys;
      SubsetSize(retained.Keys, memory.Keys);
      removed := |memory| - |retained|;
      memory := retained;
    }

    /** Goes through the directory: a file that can be read is removed if it holds an expired proof or nothing that
        deserializes. Removal can fail, which is counted as a removal for a corrupt file only. */
    method CleanupDiskExpired(now: nat, readable: Key -> bool, removable: Key -> bool)
      returns (removed: nat)
      requires Valid() && clock <= now
      modifies this`disk, this`clock
      ensures Valid() && clock == now
      ensures Cleaned(old(disk), old(disk).Keys, disk, now, ttl, readable, removable)
      ensures removed == |Counted(old(disk), old(disk).Keys, now, ttl, readable, removable)|
      ensures forall k :: k in old(disk) ==>
                (k !in disk <==>
                 readable(k) && removable(k) &&
                 (old(disk)[k].Corrupt? || now > old(disk)[k].proof.generatedAt + ttl / 1_000_000_000))
    {
      clock := now;
      removed := 0;
      var entries := disk.Keys;
      ghost var files := disk;
      while entries != {}
        invariant clock == now && Valid() && entries <= files.Keys
        invariant Cleaned(files, files.Keys - entries, disk, now, ttl, readable, removable)
        invariant removed == |Counted(files, files.Keys - entries, now, ttl, readable, removable)|
        decreases entries
      {
        var k :| k in entries;
        OneMoreVisited(files, entries, disk, k, now, ttl, readable, removable);
        var counted := VisitFile(k, now, readable(k), removable(k));
        removed := removed + counted;
        entries := entries - {k};
      }
      assert files.Keys - {} == files.Keys;
    }

    method VisitFile(k: Key, now: nat, readable: bool, removable: bool) returns (counted: nat)
      requires Valid() && clock == now && k in disk
      modifies this`disk
      ensures Valid()
      ensures disk == if readable && removable && Stale(old(disk)[k], now, ttl) then old(disk) - {k} else old(disk)
      ensures counted == if readable && Stale(old(disk)[k], now, ttl) && (old(disk)[k].Corrupt? || removable)
                         then 1 else 0
    {
      counted := 0;
      if readable && Stale(disk[k], now, ttl) {
        if disk[k].Corrupt? || removable { counted := 1; }
        if removable {
          if disk[k].Good? { CleanupAgainstServing(disk[k].proof, now, ttl); }
          disk := disk - {k};
        }
      }
    }
  }

  /** What is left of the files when a cleanup has visited some of them. */
  ghost predicate Cleaned(files: map<Key, DiskFile>, visited: set<Key>, disk: map<Key, DiskFile>, now: nat, ttl: nat,
                          readable: Key -> bool, removable: Key -> bool)
  {
    && disk.Keys <= files.Keys && (forall k :: k in disk ==> disk[k] == files[k])
    && forall k :: k in files ==> (k in disk <==>
        !(k in visited && readable(k) && removable(k) && Stale(files[k], now, ttl)))
  }

  /** What a cleanup of the directory removes. */
  predicate Stale(f: DiskFile, now: nat, ttl: nat) {
    f.Corrupt? || Age(f.proof, now) > ttl / NANOS
  }

  /** The files, of those visited, that a cleanup counts as removed. */
  ghost function Counted(files: map<Key, DiskFile>, visited: set<Key>, now: nat, ttl: nat, readable: Key -> bool,
      removable: Key -> bool): set<Key>
    requires visited <= files.Keys
  {
    set k | k in visited && readable(k) && Stale(files[k], now, ttl) && (files[k].Corrupt? || removable(k))
  }

  lemma OneMoreVisited(
    files: map<Key, DiskFile>, entries: set<Key>, disk: map<Key, DiskFile>, k: Key, now: nat, ttl: nat,
    readable: Key -> bool, removable: Key -> bool)
    requires entries <= files.Keys && k in entries
    requires Cleaned(files, files.Keys - entries, disk, now, ttl, readable, removable)
    ensures k in disk && disk[k] == files[k]
    ensures var left := if readable(k) && removable(k) && Stale(files[k], now, ttl) then disk - {k} else disk;
            Cleaned(files, files.Keys - (entries - {k}), left, now, ttl, readable, removable)
    ensures |Counted(files, files.Keys - (entries - {k}), now, ttl, readable, removable)| ==
            |Counted(files, files.Keys - entries, now, ttl, readable, removable)| +
            if readable(k) && Stale(files[k], now, ttl) && (files[k].Corrupt? || removable(k)) then 1 else 0
  {
    var before := Counted(files, files.Keys - entries, now, ttl, readable, removable);
    var after := Counted(files, files.Keys - (entries - {k}), now, ttl, readable, removable);
    if k in after { assert after == before + {k}; } else { assert after == before; }
  }

  /** What a cleanup counts, in seconds: the expired files it could remove, and every corrupt one. */
  lemma CountedMeans(files: map<Key, DiskFile>, now: nat, ttl: nat, readable: Key -> bool, removable: Key -> bool,
      k: Key)
    ensures k in Counted(files, files.Keys, now, ttl, readable, removable) <==>
            k in files && readable(k) &&
            (files[k].Corrupt? || (now > files[k].proof.generatedAt + ttl / 1_000_000_000 && removable(k)))
  {
  }

  /** Cleaning memory and serving from it disagree on one age only: a proof of exactly the time to live, in whole
      seconds, is still served but already dropped. Cleaning the directory never removes what is still served. */
  lemma CleanupAgainstServing(p: CachedProof, now: nat, ttl: nat)
    ensures Live(p, now, ttl) && !(Age(p, now) < ttl / NANOS) <==> Age(p, now) == ttl / NANOS
    ensures Stale(Good(p), now, ttl) <==> !Live(p, now, ttl)
    ensures now > p.generatedAt ==>
              (Live(p, now, ttl) && !(Age(p, now) < ttl / NANOS) <==> now - p.generatedAt == ttl / 1_000_000_000)
  {
    WholeSeconds(Age(p, now), ttl);
  }

  lemma WholeSeconds(age: nat, ttl: nat)
    ensures age * NANOS <= ttl <==> age <= ttl / NANOS
  {
    assert ttl == ttl / NANOS * NANOS + ttl % NANOS;
  }

  lemma SubsetSize<T>(a: set<T>, b: set<T>)
    requires a <= b
    ensures |a| <= |b|
  {
    assert b == a + (b - a);
  }
}
