/** A database interface with a read cache and delayed writes: it must look like the plain storage. */
module RecordCache {
  import opened Basics

  type Database(==, !new)
  type LocalKey(==, !new)
  type Content(==, !new)

  datatype Key = Key(database: Database, local: LocalKey)

  datatype Record = Record(key: Key, content: Content, deleted: bool, secret: bool, cronjewel: bool)

  datatype Error = NotFound | PermissionDenied | ReadOnly

  datatype Result<T> = Ok(value: T) | Err(error: Error)

  datatype Options = Options(
    local: bool, internal: bool, makeSecret: bool, makeCrownjewel: bool, cacheSize: nat, delay: Option<Database>)
  {
    predicate HasAllPermissions() {
      local && internal
    }

    predicate Permits(r: Record) {
      HasAllPermissions() || ((local || !r.cronjewel) && (internal || !r.secret))
    }

    /** The marks put on every saved record. */
    function Apply(r: Record): Record {
      r.(secret := r.secret || makeSecret, cronjewel := r.cronjewel || makeCrownjewel)
    }

    predicate Delays(k: Key) {
      delay == Some(k.database)
    }
  }

  // ----- what the interface must look like

  /** A record is there if it is stored and not a mark of a deletion. */
  function Stored(storage: map<Key, Record>, k: Key): Option<Record> {
    if k in storage && !storage[k].deleted then Some(storage[k]) else None
  }

  /** The record last put under a key, on top of what the storage held initially. */
  function Latest(base: map<Key, Record>, puts: seq<Record>, k: Key): Option<Record> {
    if puts == [] then Stored(base, k)
    else
      var n := |puts| - 1;
      if puts[n].key != k then Latest(base, puts[..n], k) else if puts[n].deleted then None else Some(puts[n])
  }

  lemma LatestAfter(base: map<Key, Record>, puts: seq<Record>, r: Record, k: Key)
    ensures Latest(base, puts + [r], k)
         == if r.key != k then Latest(base, puts, k) else if r.deleted then None else Some(r)
  {
    assert (puts + [r])[..|puts|] == puts;
  }

  class Interface {
    const options: Options
    const shadowDelete: bool
    const readOnly: set<Database>
    var cache: map<Key, Record>
    var writeCache: map<Key, Record>
    var storage: map<Key, Record>
    ghost const base: map<Key, Record>
    ghost var puts: seq<Record>

    /** The record last put under a key. */
    ghost function View(k: Key): Option<Record>
      reads this
    {
      Latest(base, puts, k)
    }

    /** The cache agrees with the view, a pending write is also cached, and what is not pending is
        stored. */
    ghost predicate Coherent(k: Key)
      reads this
    {
      && (k in cache ==> View(k) == Some(cache[k]))
      && (k in writeCache ==> k in cache && writeCache[k] == cache[k])
      && (k !in writeCache ==> Stored(storage, k) == View(k))
    }

    ghost predicate WellFormed()
      reads this
    {
      && (options.cacheSize == 0 ==> cache == map[])
      && (forall k | k in writeCache :: options.Delays(k) && writeCache[k].key == k && !writeCache[k].deleted)
      && (forall k | k in storage :: storage[k].key == k)
    }

    ghost predicate CoherentExcept(k0: Key)
      reads this
    {
      forall k | k != k0 :: Coherent(k)
    }

    ghost predicate Valid()
      reads this
    {
      WellFormed() && forall k :: Coherent(k)
    }

    constructor (options: Options, shadowDelete: bool, readOnly: set<Database>, storage: map<Key, Record>)
      requires forall k | k in storage :: storage[k].key == k
      ensures Valid() && puts == [] && base == storage == this.storage
      ensures this.options == options && this.shadowDelete == shadowDelete && this.readOnly == readOnly
    {
      this.options, this.shadowDelete, this.readOnly := options, shadowDelete, readOnly;
      this.storage, base, puts := storage, storage, [];
      cache, writeCache := map[], map[];
    }

    // ----- storage

    /** Controller.Put: without shadow deletes, a deleted record is removed at once. */
    method StoragePut(r: Record)
      requires WellFormed()
      modifies this`storage
      ensures WellFormed()
      ensures forall k | k != r.key :: Stored(storage, k) == Stored(old(storage), k)
      ensures Stored(storage, r.key) == if r.deleted then None else Some(r)
    {
      if !shadowDelete && r.deleted {
        storage := storage - {r.key};
      } else {
        storage := storage[r.key := r];
      }
    }

    // ----- the cache

    /** An entry leaves the cache and the handler runs: a pending write is done at once. */
    method Evict(k: Key)
      requires WellFormed() && Coherent(k)
      modifies this`cache, this`writeCache, this`storage
      ensures WellFormed() && Coherent(k) && k !in cache && k !in writeCache
      ensures forall k' | k' != k :: old(Coherent(k')) ==> Coherent(k')
      ensures cache == old(cache) - {k} && writeCache == old(writeCache) - {k}
      ensures forall k' | k' != k :: Stored(storage, k') == Stored(old(storage), k')
    {
      var pending := writeCache;
      cache, writeCache := cache - {k}, writeCache - {k};
      if k in pending {
        StoragePut(pending[k]);
      }
    }

    /** Setting an entry may evict any others, but not the one set. */
    method CacheSet(r: Record)
      requires Valid() && options.cacheSize > 0
      modifies this`cache, this`writeCache, this`storage
      ensures WellFormed() && CoherentExcept(r.key)
      ensures r.key in cache && cache[r.key] == r
      ensures r.key in writeCache ==> r.key in old(writeCache)
      ensures r.key !in writeCache ==> Stored(storage, r.key) == View(r.key)
      ensures Stored(storage, r.key) == Stored(old(storage), r.key)
    {
      var victims: set<Key> := *;
      victims := victims - {r.key};
      while victims != {}
        invariant Valid() && r.key !in victims && (r.key in writeCache ==> r.key in old(writeCache))
        invariant Stored(storage, r.key) == Stored(old(storage), r.key)
        decreases |victims|
      {
        var k :| k in victims;
        label evicting:
        assert Coherent(k);
        Evict(k);
        forall k' ensures Coherent(k') { assert old@evicting(Coherent(k')); }
        victims := victims - {k};
      }
      assert Coherent(r.key);
      label setting:
      cache := cache[r.key := r];
      forall k | k != r.key ensures Coherent(k) { assert old@setting(Coherent(k)); }
    }

    method CheckCache(k: Key) returns (r: Option<Record>)
      requires Valid()
      ensures r == if k in cache then Some(cache[k]) else None
      ensures r.Some? ==> View(k) == r
      ensures r.None? ==> Stored(storage, k) == View(k)
    {
      assert Coherent(k);
      if k in cache { return Some(cache[k]); }
      return None;
    }

    /** Whether the write is taken care of by the cache. */
    method UpdateCache(r: Record, write: bool, remove: bool) returns (written: bool)
      requires Valid() && remove == (write && r.deleted) && (!write ==> View(r.key) == Some(r) && r.key !in cache)
      modifies this`cache, this`writeCache, this`storage
      ensures WellFormed() && CoherentExcept(r.key)
      ensures !write ==> Valid() && !written
      ensures write ==> (written <==> DelaysWrite(r))
      ensures write && written ==> r.key in cache && cache[r.key] == r && r.key in writeCache && writeCache[r.key] == r
      ensures write && written ==> Stored(storage, r.key) == Stored(old(storage), r.key)
      ensures write && !written ==> r.key !in writeCache && (r.key in cache ==> cache[r.key] == r && !r.deleted)
    {
      assert Coherent(r.key);
      if options.cacheSize == 0 { return false; }
      if remove {
        Evict(r.key);
        return false;
      }
      CacheSet(r);
      if write && options.Delays(r.key) {
        label pending:
        writeCache := writeCache[r.key := r];
        forall k | k != r.key ensures Coherent(k) { assert old@pending(Coherent(k)); }
        return true;
      }
      return false;
    }

    // ----- the interface

    /** Secrets are for internal interfaces and crown jewels for local ones. */
    predicate MayAccess(r: Record) {
      (r.secret ==> options.internal) && (r.cronjewel ==> options.local)
    }

    /** Get: the record last put, if it is there and may be seen. */
    method Get(k: Key) returns (r: Result<Record>)
      requires Valid()
      modifies this`cache, this`writeCache, this`storage
      ensures Valid()
      ensures View(k).None? ==> r == Err(NotFound)
      ensures View(k).Some? ==> r == if MayAccess(View(k).value) then Ok(View(k).value) else Err(PermissionDenied)
      ensures r.Ok? && r.value.secret ==> options.internal
      ensures r.Ok? && r.value.cronjewel ==> options.local
      ensures r == Err(PermissionDenied) ==> !options.local || !options.internal
    {
      var cached := CheckCache(k);
      if cached.Some? {
        if !options.Permits(cached.value) { return Err(PermissionDenied); }
        return Ok(cached.value);
      }
      if k !in storage || storage[k].deleted { return Err(NotFound); }
      var found := storage[k];
      if !options.Permits(found) { return Err(PermissionDenied); }
      var _ := UpdateCache(found, false, false);
      return Ok(found);
    }

    /** An existing record may be replaced only by those who may see it. */
    ghost predicate MayPut(k: Key)
      reads this
    {
      k.database !in readOnly && (View(k).Some? ==> MayAccess(View(k).value))
    }

    /** The record as it is saved. */
    function Saved(r: Record, asNew: bool): (saved: Record)
      ensures saved == Record(r.key, r.content, r.deleted && !asNew,
                              r.secret || options.makeSecret, r.cronjewel || options.makeCrownjewel)
    {
      options.Apply(if asNew then r.(deleted := false) else r)
    }

    /** A write that is delayed instead of done. */
    predicate DelaysWrite(r: Record) {
      options.cacheSize > 0 && options.delay == Some(r.key.database) && !r.deleted
    }

    /** Put, and with fresh metadata PutNew, which also undoes a deletion. A delayed write is pending
        and the storage untouched at its key; any other write is done. */
    method Put(r: Record, asNew: bool) returns (result: Result<()>)
      requires Valid()
      modifies this
      ensures Valid()
      ensures result.Ok? <==> old(MayPut(r.key))
      ensures result.Ok? ==> puts == old(puts) + [Saved(r, asNew)]
      ensures result.Ok? && DelaysWrite(Saved(r, asNew)) ==>
        && r.key in writeCache && writeCache[r.key] == Saved(r, asNew)
        && Stored(storage, r.key) == Stored(old(storage), r.key)
      ensures result.Ok? && !DelaysWrite(Saved(r, asNew)) ==> r.key !in writeCache
      ensures result.Err? ==> puts == old(puts)
    {
      if !options.HasAllPermissions() {
        if r.key.database in readOnly { return Err(ReadOnly); }
        var cached := CheckCache(r.key);
        if cached.None? && r.key in storage && !storage[r.key].deleted {
          cached := Some(storage[r.key]);
        }
        if cached.Some? && !options.Permits(cached.value) { return Err(PermissionDenied); }
      }
      if r.key.database in readOnly { return Err(ReadOnly); }
      var applied := Saved(r, asNew);
      var written := UpdateCache(applied, true, applied.deleted);
      label update:
      if !written {
        StoragePut(applied);
        forall k | k != r.key ensures Coherent(k) { assert old@update(Coherent(k)); }
      }
      Remember(applied);
      return Ok(());
    }

    /** The record becomes the last one put under its key. */
    ghost method Remember(r: Record)
      requires WellFormed() && CoherentExcept(r.key)
      requires r.key in writeCache ==> r.key in cache && writeCache[r.key] == r
      requires r.key in cache ==> cache[r.key] == r && !r.deleted
      requires r.key !in writeCache ==> Stored(storage, r.key) == if r.deleted then None else Some(r)
      modifies this`puts
      ensures Valid() && puts == old(puts) + [r]
    {
      forall k ensures Latest(base, puts + [r], k)
         == if r.key != k then Latest(base, puts, k) else if r.deleted then None else Some(r)
      {
        LatestAfter(base, puts, r, k);
      }
      puts := puts + [r];
      forall k ensures Coherent(k) { assert k != r.key ==> old(Coherent(k)); }
    }

    /** Whether a flush with a threshold does anything: there is something to write, and enough. */
    predicate Flushes(percentThreshold: nat)
      reads this
    {
      |writeCache| > 0 && options.cacheSize > 0 && |writeCache| * 100 / options.cacheSize >= percentThreshold
    }

    /** flushWriteCache. With all permissions nothing is lost, and if the threshold is zero or reached
        the storage alone holds the view afterwards. Without, the batch is refused and the pending
        writes are dropped, which the view survives exactly if they were stored already. */
    method FlushWriteCache(percentThreshold: nat)
      requires Valid()
      modifies this`writeCache, this`storage
      ensures options.HasAllPermissions() ==> Valid()
      ensures options.HasAllPermissions() && (percentThreshold == 0 || old(Flushes(percentThreshold))) ==>
        writeCache == map[] && forall k :: Stored(storage, k) == View(k)
      ensures !old(Flushes(percentThreshold)) ==> Valid() && writeCache == old(writeCache) && storage == old(storage)
      ensures !options.HasAllPermissions() && old(Flushes(percentThreshold)) ==>
        && writeCache == map[] && storage == old(storage)
        && (Valid() <==> forall k | k in old(writeCache) :: Stored(storage, k) == Some(old(writeCache)[k]))
    {
      if |writeCache| == 0 {
        forall k ensures Stored(storage, k) == View(k) { assert Coherent(k); }
        return;
      }
      CachedIfPending();
      if |writeCache| * 100 / options.cacheSize < percentThreshold { return; }
      if options.HasAllPermissions() {
        WriteAll();
      } else {
        label refused:
        ghost var pending := writeCache;
        writeCache := map[];
        forall k ensures Coherent(k) <==> k !in pending || Stored(storage, k) == Some(pending[k]) {
          assert old@refused(Coherent(k));
        }
      }
    }

    /** What is pending is cached, so there is a cache. */
    ghost method CachedIfPending()
      requires Valid() && |writeCache| > 0
      ensures options.cacheSize > 0
    {
      var k := AnyKey(writeCache.Keys);
      assert Coherent(k);
    }

    /** The batch: every pending record is written, in any order, and nothing is pending any more. */
    method WriteAll()
      requires Valid()
      modifies this`writeCache, this`storage
      ensures Valid() && writeCache == map[] && forall k :: Stored(storage, k) == View(k)
    {
      var todo := writeCache.Keys;
      while todo != {}
        invariant WellFormed() && todo <= writeCache.Keys && writeCache == old(writeCache)
        invariant forall k :: Coherent(k)
        invariant forall k | k in writeCache && k !in todo :: Stored(storage, k) == Some(writeCache[k])
      {
        var k :| k in todo;
        label writing:
        StoragePut(writeCache[k]);
        forall k' ensures Coherent(k') { assert old@writing(Coherent(k')); }
        todo := todo - {k};
      }
      label written:
      writeCache := map[];
      forall k ensures Coherent(k) { assert old@written(Coherent(k)); }
      forall k ensures Stored(storage, k) == View(k) { assert Coherent(k); }
    }
  }

  /** A write delayed without all permissions is lost by a flush: the record is neither pending nor
      stored. */
  method FlushLosesWrite(database: Database, local: LocalKey, content: Content) returns (i: Interface, r: Record)
    ensures i.View(r.key) == Some(r) && r.key !in i.writeCache && Stored(i.storage, r.key) == None && !i.Valid()
  {
    var options := Options(true, false, false, false, 1, Some(database));
    i := new Interface(options, false, {}, map[]);
    r := Record(Key(database, local), content, false, false, false);
    var result := i.Put(r, false);
    LatestAfter(i.base, [], r, r.key);
    assert [] + [r] == [r];
    assert i.puts == [r];
    NotEmpty(i.writeCache, r.key);
    i.FlushWriteCache(0);
    assert !i.Coherent(r.key);
  }

  lemma NotEmpty(m: map<Key, Record>, k: Key)
    requires k in m
    ensures |m| > 0
  {
    assert k in m.Keys;
  }

  lemma AnyKey(keys: set<Key>) returns (k: Key)
    requires |keys| > 0
    ensures k in keys
  {
    assert keys != {};
    k :| k in keys;
  }
}
