/** The engine: its methods change memtable, tables, log and cache in place. */
module Engines {
  import opened Seqs
  import opened SortedMap
  import opened Records
  import opened UnifiedIterators
  import opened RangeIterators
  import opened Commands
  import opened WriteAheadLog
  import opened BloomFilters
  import BlockCaches
  import opened Tables
  import opened TableBuilder
  import opened Leveling
  import opened Manifests
  import opened ManagerState
  import opened Durability
  import opened Managers
  import Picker
  import opened Compactions
  import opened EngineState
  import opened Lookups

  /** The sources of a full iteration, newest first. */
  function Sources(db: Db): seq<seq<Record>> {
    [db.memtable] + Reverse(Stack(db.tables.l0)) + Reverse(Stack(db.tables.l1)) + Reverse(Stack(db.tables.l2))
  }

  lemma {:induction false} ReverseSources(m: seq<Record>, a: seq<seq<Record>>, b: seq<seq<Record>>, c: seq<seq<Record>>)
    ensures Reverse([m] + Reverse(a) + Reverse(b) + Reverse(c)) == c + b + a + [m]
  {
  }

  /** Read newest source first, the iteration sees exactly the raw map. */
  lemma {:induction false} SourcesShowRaw(c: Setup, db: Db)
    requires ValidDb(c, db)
    ensures AllSorted(Sources(db)) && Overlay(Reverse(Sources(db))) == RawDb(db)
  {
    LevelsSorted(c.medium, db.tables);
    hide Sorted, Overlay, Contents, ValidLevels;
    var x, y, z := Stack(db.tables.l0), Stack(db.tables.l1), Stack(db.tables.l2);
    ReverseSources(db.memtable, x, y, z);
    OverlayConcat(z + y + x, [db.memtable]);
    OverlayConcat(z + y, x);
    OverlayConcat(z, y);
    OverlaySingle(db.memtable);
    SortedSources(db.memtable, x, y, z);
  }

  lemma {:induction false} SortedSources(m: seq<Record>, a: seq<seq<Record>>, b: seq<seq<Record>>, c: seq<seq<Record>>)
    requires Sorted(m) && AllSorted(a) && AllSorted(b) && AllSorted(c)
    ensures AllSorted([m] + Reverse(a) + Reverse(b) + Reverse(c))
  {
    hide Sorted;
    ReversedSorted(a);
    ReversedSorted(b);
    ReversedSorted(c);
    JoinedSorted([m], Reverse(a));
    JoinedSorted([m] + Reverse(a), Reverse(b));
    JoinedSorted([m] + Reverse(a) + Reverse(b), Reverse(c));
  }

  lemma {:induction false} ReversedSorted(a: seq<seq<Record>>)
    requires AllSorted(a)
    ensures AllSorted(Reverse(a))
  {
    hide Sorted;
  }

  lemma {:induction false} JoinedSorted(a: seq<seq<Record>>, b: seq<seq<Record>>)
    requires AllSorted(a) && AllSorted(b)
    ensures AllSorted(a + b)
  {
    hide Sorted;
  }

  class Engine {
    const setup: Setup
    var memtable: seq<Record>
    const tables: SSTableManager
    const storage: Storage
    const blockCache: BlockCaches.BlockCache

    function State(): Db
      reads this, tables, storage
    {
      Db(memtable, tables.State(), storage.State())
    }

    /** The parts agree on the setup, and the tables are usable. */
    ghost predicate Valid()
      reads this, tables, storage
    {
      && tables.medium == setup.medium && storage.crc == setup.crc
      && ValidMedium(setup.medium) && ValidDb(setup, State())
    }

    constructor (setup: Setup, tables: SSTableManager, storage: Storage)
      ensures this.setup == setup && this.tables == tables && this.storage == storage && fresh(blockCache)
      ensures memtable == [] && blockCache.State() == BlockCaches.Empty(64)
    {
      this.setup, this.tables, this.storage := setup, tables, storage;
      memtable := [];
      blockCache := new BlockCaches.BlockCache(64);
    }

    /** Start-up; false when a log header stops the program. */
    method Start() returns (ok: bool)
      requires memtable == [] && storage.crc == setup.crc
      requires tables.l0 == [] && tables.l1 == [] && tables.l2 == []
      modifies this, tables
      ensures ok <==> LoadAll(setup.crc, storage.State()).Some?
      ensures ok ==> memtable == Replayed(LoadAll(setup.crc, storage.State()).value)
      ensures ok ==>
              var s := old(tables.State());
              var d := Replay(ManifestRecords(s), s.disk);
              tables.State() == s.(l0 := d.l0, l1 := d.l1, l2 := d.l2)
      ensures ok ==> forall db :: StartsFrom(db, old(tables.State()), storage.State()) ==> State() == Restart(setup, db)
    {
      var commands := storage.Load();
      if commands.None? {
        return false;
      }
      ReplayWal(commands.value);
      tables.LoadManifest();
      return true;
    }

    method ReplayWal(commands: seq<Command>)
      requires memtable == []
      modifies this
      ensures memtable == Replayed(commands)
    {
      for i := 0 to |commands|
        invariant memtable == Replayed(commands[..i])
      {
        TakeNext(commands, i);
        match commands[i] {
          case Set(key, value) => memtable := Insert(memtable, key, Data(value));
          case Del(key) => memtable := Insert(memtable, key, Tombstone);
          case _ =>
        }
      }
      TakeAll(commands);
    }

    /** Writes the memtable under an id just taken; with nothing in the memtable it does nothing. */
    method FlushToSSTable(id: nat)
      requires Valid() && id + 1 == tables.nextId
      modifies this, tables
      ensures storage.State() == old(storage.State()) && memtable == []
      ensures old(memtable) == [] ==> tables.State() == old(tables.State())
      ensures old(memtable) != [] ==>
                tables.State() == PickedL0(setup.medium, Flushed(setup.medium, old(tables.State()).(nextId := id), old(memtable)))
    {
      hide ValidLevels, ManagerState.SizeTieredCompactL0, Flushed, ValidMedium;
      if memtable == [] {
        return;
      }
      WriteMemtable(id);
      LevelsSorted(setup.medium, tables.State());
      Picker.CandidatesExact(tables.l0);
      var candidate := tables.PickL0();
      if candidate.Some? {
        tables.SizeTieredCompactL0(candidate.value);
      }
      memtable := [];
    }

    /** The memtable's file, and its table in L0 and in the manifest. */
    method WriteMemtable(id: nat)
      requires Valid() && id + 1 == tables.nextId && memtable != []
      modifies tables
      ensures tables.State() == Flushed(setup.medium, old(tables.State()).(nextId := id), memtable)
      ensures ValidLevels(setup.medium, tables.State())
    {
      hide ValidLevels, FilterFor, WriteFile, ValidMedium;
      var data := memtable;
      ghost var before := tables.State().(nextId := id);
      RelabelLevels(setup.medium, tables.State(), before);
      FlushedKeeps(setup.medium, before, data);
      var bloom := MemoryFilter(data);
      var path := TablePath(L0, id);
      var file := WriteFile(setup.medium, data, |data|);
      tables.disk := tables.disk[path := file];
      tables.AddTable(SSTable(path, file.blocks, bloom, L0, data[0].key, data[|data| - 1].key,
                              setup.medium.fileBytes(data, |data|)));
      assert tables.State() == Flushed(setup.medium, before, data);
    }

    /** The filter a flushed table keeps in memory: every key inserted, sized for at least eight. */
    method MemoryFilter(data: seq<Record>) returns (bloom: Bloom)
      requires ValidMedium(setup.medium)
      ensures bloom == FilterFor(setup.medium, if |data| < 8 then 8 else |data|, data)
    {
      var n := if |data| < 8 then 8 else |data|;
      bloom := BuildFilter(setup.medium.hasher, setup.medium.filterBits(n), setup.medium.filterHashes(n), Keys(data));
    }

    method MaybeFlush()
      requires Valid()
      modifies this, tables
      ensures State() == EngineState.MaybeFlush(setup, old(State()))
    {
      hide ValidLevels, PickedL0, Flushed;
      if |memtable| >= setup.limit {
        ghost var before := tables.State();
        var id := tables.NextId();
        RelabelLevels(setup.medium, before, tables.State());
        assert tables.State().(nextId := id) == before;
        FlushToSSTable(id);
      }
    }

    method Put(key: string, value: string)
      requires Valid()
      modifies this, tables, storage
      ensures State() == EngineState.Put(setup, old(State()), key, value)
    {
      hide ValidLevels, Insert, AppendCommand, Flush;
      storage.Append(Set(key, value));
      InsertUpdates(memtable, key, Data(value));
      memtable := Insert(memtable, key, Data(value));
      MaybeFlush();
    }

    method Delete(key: string)
      requires Valid()
      modifies this, tables, storage
      ensures State() == EngineState.Delete(setup, old(State()), key)
    {
      hide ValidLevels, Insert, AppendCommand, Flush;
      storage.Append(Del(key));
      InsertUpdates(memtable, key, Tombstone);
      memtable := Insert(memtable, key, Tombstone);
      MaybeFlush();
    }

    /** The background worker's turn. */
    method Compact()
      requires Valid()
      modifies tables
      ensures State() == CompactTables(setup, old(State()))
    {
      hide ValidLevels, MaybeCompact;
      tables.MaybeCompact();
    }

    method Shutdown()
      requires Valid()
      modifies this, tables, storage
      ensures State() == EngineState.Shutdown(setup, old(State()))
    {
      hide ValidLevels, PickedL0, Flushed, CheckpointLog, ResetLog;
      if memtable == [] {
        return;
      }
      ghost var before := tables.State();
      var id := tables.NextId();
      RelabelLevels(setup.medium, before, tables.State());
      assert tables.State().(nextId := id) == before;
      FlushToSSTable(id);
      storage.Reset();
      storage.Checkpoint();
    }

    method SearchOne(t: SSTable, key: string) returns (r: Option<Value>)
      requires t in tables.l0 || t in tables.l1 || t in tables.l2
      requires ValidBlocks(t.blocks) && FilesMatch(tables.State()) && Coherent(blockCache.State(), tables.State())
      requires Issued(t.path, tables.nextId)
      modifies blockCache
      ensures r == Find(RecordsOf(t), key)
      ensures Coherent(blockCache.State(), tables.State())
    {
      hide Coherent, Issued, BlockCaches.Touched, BlockCaches.Stored, Sorted;
      var block := FindBlockIndex(t.blocks, key);
      SparseIndexDecides(t.blocks, key, block);
      if block.None? {
        return None;
      }
      var b := t.blocks[block.value];
      BlockSorted(t.blocks, block.value);
      BlockAtIndex(t.blocks, block.value);
      ghost var s := tables.State();
      assert s.disk[t.path].blocks == t.blocks;
      var cacheKey := BlockCaches.CacheKey(t.path, b.offset);
      ghost var cache := blockCache.State();
      var cached := blockCache.Get(cacheKey);
      TouchedCoherent(cache, s, cacheKey);
      if cached.Some? {
        CachedBlock(cache, s, cacheKey);
        r := BinarySearchBlock(cached.value, key);
        return;
      }
      var read := ReadBlock(tables.disk, t.path, b.offset);
      if read.None? {
        return None;
      }
      StoredCoherent(blockCache.State(), s, cacheKey, read.value);
      blockCache.Insert(cacheKey, read.value);
      r := BinarySearchBlock(read.value, key);
    }

    /** The tables worth searching in one level, newest first. */
    method CollectCandidates(level: seq<SSTable>, key: string) returns (v: seq<SSTable>)
      ensures v == Candidates(setup.medium.hasher, level, key)
    {
      v := [];
      var i := |level|;
      TakeAll(level);
      while i > 0
        invariant 0 <= i <= |level|
        invariant v + Candidates(setup.medium.hasher, level[..i], key) == Candidates(setup.medium.hasher, level, key)
      {
        i := i - 1;
        TakeNext(level, i);
        InitOfSnoc(level[..i], level[i]);
        if ContainsKeyRange(level[i], key) && Holds(setup.medium.hasher, level[i].bloom, key) {
          ConcatAssociates(v, [level[i]], Candidates(setup.medium.hasher, level[..i], key));
          v := v + [level[i]];
        } else {
          assert [] + Candidates(setup.medium.hasher, level[..i], key) == Candidates(setup.medium.hasher, level[..i], key);
        }
      }
      ConcatNothing(v);
    }

    /** Point lookup: the memtable, then the filtered tables newest first, through the cache. It answers as
        the unfiltered and uncached raw map does. */
    method GetKey(key: string) returns (r: Option<Value>)
      requires Valid() && Readable(tables.State()) && Coherent(blockCache.State(), tables.State())
      modifies blockCache
      ensures r == Lookup(RawDb(State()), key)
      ensures Coherent(blockCache.State(), tables.State())
    {
      hide Coherent, Issued, ValidTable, Overlay, Candidates, Contents, RecordsOf, Sorted;
      FindIsLookup(memtable, key);
      var val := Find(memtable, key);
      if val.Some? {
        return val;
      }
      var a := CollectCandidates(tables.l0, key);
      var b := CollectCandidates(tables.l1, key);
      var c := CollectCandidates(tables.l2, key);
      var candidates := a + b + c;
      ghost var s := tables.State();
      AllCandidatesDecide(setup.medium, s, key);
      CandidatesListed(setup.medium, s, key);
      assert candidates[0..] == candidates;
      for i := 0 to |candidates|
        invariant Coherent(blockCache.State(), tables.State())
        invariant FirstHit(candidates[i..], key) == Lookup(Raw(s), key)
      {
        assert candidates[i..][1..] == candidates[i + 1..] && candidates[i..][0] == candidates[i];
        r := SearchOne(candidates[i], key);
        if r.Some? {
          return;
        }
      }
      return None;
    }

    /** The full iterator yields the raw map. */
    method Iter() returns (it: UnifiedStorageIterator)
      requires Valid()
      ensures fresh(it) && fresh(it.sources) && it.Valid() && it.Remaining() == RawDb(State())
    {
      SourcesShowRaw(setup, State());
      it := new UnifiedStorageIterator(Sources(State()));
    }

    method RangeScan(start: string, end: string) returns (it: RangeStorageIterator)
      requires Valid()
      ensures fresh(it) && fresh(it.inner) && fresh(it.inner.sources) && it.Valid()
      ensures it.Remaining() == Within(RawDb(State()), start, end)
    {
      var inner := Iter();
      it := new RangeStorageIterator(inner, start, end);
    }

    /** Everything the range scan yields, as the executor collects it. */
    method CollectRange(start: string, end: string) returns (out: seq<Record>)
      requires Valid()
      ensures Sorted(out) && Contents(out) == Within(RawDb(State()), start, end)
    {
      var it := RangeScan(start, end);
      out := it.Drain();
    }
  }

  /** The counter's value has nothing to do with the levels. */
  lemma {:induction false} RelabelLevels(m: Medium, s: Manager, t: Manager)
    requires ValidLevels(m, s) && t.l0 == s.l0 && t.l1 == s.l1 && t.l2 == s.l2
    ensures ValidLevels(m, t)
  {
  }

  lemma {:induction false} CachedBlock(cache: BlockCaches.Cache, s: Manager, k: BlockCaches.CacheKey)
    requires Coherent(cache, s) && k in cache.blocks && k.path in s.disk
    ensures ReadBlock(s.disk, k.path, k.offset) == Some(cache.blocks[k])
  {
  }

  lemma {:induction false} CandidatesAreTables(h: Hasher, ts: seq<SSTable>, key: string)
    ensures forall t :: t in Candidates(h, ts, key) ==> t in ts
  {
    if ts != [] {
      CandidatesAreTables(h, ts[..|ts| - 1], key);
    }
  }

  lemma {:induction false} CandidatesListed(m: Medium, s: Manager, key: string)
    requires ValidLevels(m, s) && FilesMatch(s)
    ensures forall i :: 0 <= i < |AllCandidates(m.hasher, s, key)| ==>
              var t := AllCandidates(m.hasher, s, key)[i];
              (t in s.l0 || t in s.l1 || t in s.l2) && ValidBlocks(t.blocks) && t.path in s.disk
  {
    hide Candidates, ValidBlocks, FilterCovers, RecordsOf;
    CandidatesAreTables(m.hasher, s.l0, key);
    CandidatesAreTables(m.hasher, s.l1, key);
    CandidatesAreTables(m.hasher, s.l2, key);
    var all := AllCandidates(m.hasher, s, key);
    forall i | 0 <= i < |all|
      ensures (all[i] in s.l0 || all[i] in s.l1 || all[i] in s.l2) && ValidBlocks(all[i].blocks) && all[i].path in s.disk
    {
      assert all[i] in Candidates(m.hasher, s.l0, key) || all[i] in Candidates(m.hasher, s.l1, key) ||
             all[i] in Candidates(m.hasher, s.l2, key);
      assert ValidTable(m.hasher, all[i]);
    }
  }
}
