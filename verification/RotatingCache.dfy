/**
 The rotating cache object. Every operation is proved to be a step of the state machine in
 CacheModel; the eviction loop, which sorts again on every turn, is proved to leave exactly
 the entries that one stable sort and its shortest sufficient prefix leave.
 */
module RotatingCache {
  import opened CacheEviction
  import opened CacheModel
  import opened StableSort
  import opened Wrappers

  // ----- lemmas for the two eviction loops -----

  /** The state of the sweep for expired entries before index `i` of its snapshot. */
  predicate Swept(snapshot: seq<Meta>, gone: seq<Meta>, entries: seq<Meta>, i: nat, now: int)
    requires i <= |snapshot|
  {
    && entries == Keep(snapshot, gone)
    && (forall m :: m in gone ==> IsStale(m, now))
    && (forall j :: 0 <= j < i && IsStale(snapshot[j], now) ==> snapshot[j] in gone)
    && (forall j :: i <= j < |snapshot| ==> snapshot[j] in entries)
  }

  lemma SweepOne(snapshot: seq<Meta>, gone: seq<Meta>, entries: seq<Meta>, i: nat, now: int)
    requires DistinctKeys(snapshot) && i < |snapshot|
    requires Swept(snapshot, gone, entries, i, now)
    ensures snapshot[i] in entries
    ensures if IsStale(snapshot[i], now)
            then Swept(snapshot, gone + [snapshot[i]], DropKey(entries, snapshot[i].key), i + 1, now)
            else Swept(snapshot, gone, entries, i + 1, now)
  {
    KeepSnoc(snapshot, gone, snapshot[i]);
    DropKeyMembers(entries, snapshot[i].key);
  }

  lemma SweptAll(snapshot: seq<Meta>, gone: seq<Meta>, entries: seq<Meta>, now: int)
    requires Swept(snapshot, gone, entries, |snapshot|, now)
    ensures entries == Fresh(snapshot, now)
    ensures SumBytes(entries) == SumBytes(Sort(entries, ScoreAt(now)))
  {
    KeepIsFresh(snapshot, gone, now);
    SumSort(entries, ScoreAt(now));
  }

  /** The fields a put leaves behind, given what was left (`left`, `mid`) once room was made. */
  predicate PutFields(c: Cache, p: Put, left: seq<Meta>, mid: map<File, string>, c': Cache) {
    if p.bytes > BUDGET_BYTES then
      c'.entries == left && c'.totalBytes == SumBytes(left) && c'.counter == c.counter && c'.disk == mid
    else
      && c'.counter == c.counter + 1
      && c'.disk - {PutFile(c, p)} == mid - {PutFile(c, p)}
      && if p.written then
           && c'.entries == left + [PutMeta(c, p)] && c'.totalBytes == SumBytes(left) + p.bytes
           && PutFile(c, p) in c'.disk && c'.disk[PutFile(c, p)] == p.payload.contents
         else
           c'.entries == left && c'.totalBytes == SumBytes(left)
  }

  lemma PutDone(c: Cache, latest: PlainMap, p: Put, left: seq<Meta>, mid: map<File, string>, c': Cache)
    requires Inv(c, latest)
    requires left == Survivors(DropKey(c.entries, p.key), p.bytes, p.evictAt)
    requires OnlyDeleted(c.disk, mid, left)
    requires PutFields(c, p, left, mid, c')
    ensures PutStep(c, p, c') && Inv(c', latest[p.key := p.payload])
  {
    PutLeft(c, latest, p);
    SumAppend(left, PutMeta(c, p));
    PutKeepsInv(c, latest, p, c');
  }

  lemma LoopStopsAtShortest(ranked: seq<Meta>, incoming: nat, i: nat)
    requires incoming <= BUDGET_BYTES && i <= |ranked|
    requires SumBytes(ranked[i..]) + incoming <= BUDGET_BYTES
    requires forall k :: 0 <= k < i ==> SumBytes(ranked[k..]) + incoming > BUDGET_BYTES
    ensures i == Shortest(ranked, incoming)
  {
    ShortestIsLeast(ranked, incoming);
  }

  class RotatingCache {
    var entries: seq<Meta>
    var totalBytes: int
    var counter: nat
    var disk: map<File, string>

    /** The plain map the cache must agree with: the last payload put under each key. */
    ghost var latest: PlainMap

    ghost function View(): Cache
      reads this
    {
      Cache(entries, totalBytes, counter, disk)
    }

    ghost predicate Valid()
      reads this
    {
      Inv(View(), latest)
    }

    /** The part of the invariant that holds between the removals of one operation. */
    ghost predicate Tidy()
      reads this
    {
      DistinctKeys(entries) && DistinctFiles(entries) && totalBytes == SumBytes(entries)
    }

    constructor ()
      ensures View() == EMPTY && latest == map[]
      ensures Valid()
    {
      entries, totalBytes, counter, disk := [], 0, 0, map[];
      latest := map[];
    }

    /** Deletes the payload file, which may fail, then the entry and its bytes.
        The clamp at zero never changes the total. */
    method RemoveEntry(meta: Meta, ghost since: map<File, string>)
      requires Tidy() && meta in entries
      requires OnlyDeleted(since, disk, entries)
      modifies `entries, `totalBytes, `disk
      ensures Tidy()
      ensures entries == DropKey(old(entries), meta.key)
      ensures totalBytes == old(totalBytes) - meta.bytes
      ensures OnlyDeleted(since, disk, entries)
    {
      DropIsRemove(entries, meta);
      DropKeyMembers(entries, meta.key);
      FilesByMembers(entries);
      SublistKeepsFiles(entries, DropKey(entries, meta.key));
      if * {
        disk := disk - {meta.file};
      }
      totalBytes := if totalBytes - meta.bytes < 0 then 0 else totalBytes - meta.bytes;
      entries := DropKey(entries, meta.key);
    }

    method EvictToFit(incoming: nat, now: int) returns (fit: bool)
      requires Tidy()
      modifies `entries, `totalBytes, `disk
      ensures Tidy()
      ensures fit <==> incoming <= BUDGET_BYTES
      ensures fit ==> totalBytes + incoming <= BUDGET_BYTES
      ensures entries == Survivors(old(entries), incoming, now)
      ensures OnlyDeleted(old(disk), disk, entries)
    {
      if incoming > BUDGET_BYTES {
        return false;
      }
      DropStale(now);
      ghost var live, ranked := entries, Sort(entries, ScoreAt(now));
      ghost var i := 0;
      KeepNone(live);
      while totalBytes + incoming > BUDGET_BYTES
        invariant Tidy()
        invariant i <= |ranked|
        invariant entries == Keep(live, ranked[..i])
        invariant SumBytes(entries) == SumBytes(ranked[i..])
        invariant forall k :: 0 <= k < i ==> SumBytes(ranked[k..]) + incoming > BUDGET_BYTES
        invariant OnlyDeleted(old(disk), disk, entries)
        decreases |ranked| - i
      {
        RankOfKeep(live, ScoreAt(now), i);
        SumSort(entries, ScoreAt(now));
        if entries == [] {
          break;
        }
        var sorted := Sort(entries, ScoreAt(now));
        var victim := sorted[0];
        SplitAt(ranked, i);
        RankStep(live, ScoreAt(now), i);
        RemoveEntry(victim, old(disk));
        i := i + 1;
        SumSort(entries, ScoreAt(now));
      }
      LoopStopsAtShortest(ranked, incoming, i);
      fit := totalBytes + incoming <= BUDGET_BYTES;
    }

    /** The first loop of eviction: expired entries go before anything is scored. */
    method DropStale(now: int)
      requires Tidy()
      modifies `entries, `totalBytes, `disk
      ensures Tidy()
      ensures entries == Fresh(old(entries), now)
      ensures SumBytes(entries) == SumBytes(Sort(entries, ScoreAt(now)))
      ensures OnlyDeleted(old(disk), disk, entries)
    {
      var snapshot := entries;
      ghost var gone: seq<Meta> := [];
      KeepNone(snapshot);
      for i := 0 to |snapshot|
        invariant Tidy()
        invariant Swept(snapshot, gone, entries, i, now)
        invariant OnlyDeleted(old(disk), disk, entries)
      {
        var meta := snapshot[i];
        SweepOne(snapshot, gone, entries, i, now);
        if IsStale(meta, now) {
          RemoveEntry(meta, old(disk));
          gone := gone + [meta];
        }
      }
      SweptAll(snapshot, gone, entries, now);
    }

    /** Frees the key's old entry and makes room: the common start of both ways to store. */
    method MakeRoom(key: string, bytes: nat, evictAt: int) returns (fit: bool)
      requires Tidy()
      modifies `entries, `totalBytes, `disk
      ensures Tidy()
      ensures fit <==> bytes <= BUDGET_BYTES
      ensures entries == Survivors(DropKey(old(entries), key), bytes, evictAt)
      ensures OnlyDeleted(old(disk), disk, entries)
    {
      var prev := Find(entries, key);
      FindMember(entries, key);
      if prev.Some? {
        RemoveEntry(prev.value, disk);
      } else {
        DropAbsent(entries, key);
      }
      ghost var before, held := disk, entries;
      fit := EvictToFit(bytes, evictAt);
      SurvivorMembers(held, bytes, evictAt);
    }

    /** The file system's write: a failed one may leave part of the file behind. */
    method WriteFile(file: File, contents: string, written: bool)
      modifies `disk
      ensures written ==> disk == old(disk)[file := contents]
      ensures disk - {file} == old(disk) - {file}
    {
      if written {
        disk := disk[file := contents];
      } else if * {
        var partial: string := *;
        disk := disk[file := partial];
      }
    }

    /** If room was made, takes the next file name, writes or moves the payload there, and on
        success adds the entry. */
    method Record(p: Put, fit: bool, ghost c: Cache)
      requires fit <==> p.bytes <= BUDGET_BYTES
      requires c.counter == counter && totalBytes == SumBytes(entries)
      modifies `entries, `totalBytes, `counter, `disk
      ensures PutFields(c, p, old(entries), old(disk), View())
      ensures counter == old(counter) + (if fit then 1 else 0)
    {
      if !fit {
        return;
      }
      counter := counter + 1;
      var file := File(counter, if p.payload.isJson then Dat else Bin);
      if p.payload.isJson {
        WriteFile(file, p.payload.contents, p.written);
      } else {
        MoveFile(file, p.payload.contents, p.written);
      }
      if p.written {
        entries := entries + [Meta(p.key, file, p.bytes, p.tier, p.payload.isJson, p.now, 1, p.now)];
        totalBytes := totalBytes + p.bytes;
      }
    }

    /** Stores a JSON text: `p.written` says whether the file write succeeds. */
    method WriteEntry(p: Put)
      requires Valid() && p.payload.isJson
      modifies this
      ensures PutStep(old(View()), p, View())
      ensures latest == old(latest)[p.key := p.payload]
      ensures Valid()
    {
      ghost var c := View();
      latest := latest[p.key := p.payload];
      var fit := MakeRoom(p.key, p.bytes, p.evictAt);
      ghost var left, mid := entries, disk;
      Record(p, fit, c);
      PutDone(c, old(latest), p, left, mid, View());
    }

    /** The file system's move: a failed one leaves nothing under the new name. */
    method MoveFile(file: File, contents: string, moved: bool)
      modifies `disk
      ensures disk == if moved then old(disk)[file := contents] else old(disk)
    {
      if moved {
        disk := disk[file := contents];
      }
    }

    /** Takes over a downloaded file: `p.written` says whether the move succeeds. */
    method AdoptFile(p: Put) returns (dest: Option<File>)
      requires Valid() && !p.payload.isJson
      modifies this
      ensures PutStep(old(View()), p, View())
      ensures latest == old(latest)[p.key := p.payload]
      ensures dest == if p.bytes <= BUDGET_BYTES && p.written then Some(PutFile(old(View()), p)) else None
      ensures dest.Some? ==> dest.value in disk && disk[dest.value] == p.payload.contents
      ensures Valid()
    {
      ghost var c := View();
      dest := None;
      latest := latest[p.key := p.payload];
      var fit := MakeRoom(p.key, p.bytes, p.evictAt);
      ghost var left, mid := entries, disk;
      Record(p, fit, c);
      if fit && p.written {
        dest := Some(File(counter, Bin));
      }
      PutDone(c, old(latest), p, left, mid, View());
    }

    /** A JSON put; data that does not serialise is not a put at all. */
    method PutJSON(key: string, raw: Option<string>, bytes: nat, tier: Tier, evictAt: int, now: int, written: bool)
      requires Valid()
      modifies this
      ensures Valid()
      ensures raw == None ==> View() == old(View()) && latest == old(latest)
      ensures raw.Some? ==>
        var p := Put(key, Payload(true, raw.value), bytes, tier, evictAt, now, written);
        PutStep(old(View()), p, View()) && latest == old(latest)[key := p.payload]
    {
      if raw.Some? {
        WriteEntry(Put(key, Payload(true, raw.value), bytes, tier, evictAt, now, written));
      }
    }

    /** The first half of a JSON read, up to the file system's turn. A missing or foreign entry is a
        miss; an expired one also queues a clean-up of the key. */
    method BeginGetJSON(key: string, now: int) returns (meta: Option<Meta>, dropQueued: bool)
      requires Valid()
      ensures meta == Found(View(), key, true, now)
      ensures meta.Some? ==> key in latest && latest[key].isJson && Promises(View(), meta.value.file, latest[key].contents)
      ensures dropQueued <==>
        var m := Find(entries, key);
        m.Some? && m.value.isJson && IsStale(m.value, now)
    {
      var found := Find(entries, key);
      if found == None || !found.value.isJson {
        return None, false;
      }
      if IsStale(found.value, now) {
        return None, true;
      }
      FoundPromises(View(), latest, key, true, now);
      return found, false;
    }

    /** The second half, after any steps in between: a file that cannot be read is a miss and queues a
        clean-up, text that does not parse is a miss. A hit is counted if the entry is still there. */
    method FinishGetJSON(meta: Meta, now: int, readOk: bool, parseOk: bool, ghost began: string)
      returns (answer: Option<string>, dropQueued: bool)
      requires Valid() && Promises(View(), meta.file, began)
      modifies `entries
      ensures Valid()
      ensures answer == ReadFile(Some(meta), disk, readOk && parseOk)
      ensures answer.Some? ==> answer.value == began
      ensures entries == if answer.Some? then Touch(old(entries), meta.file, now) else old(entries)
      ensures dropQueued <==> meta.file !in disk || !readOk
    {
      if meta.file !in disk || !readOk {
        return None, true;
      }
      var raw := disk[meta.file];
      if !parseOk {
        return None, false;
      }
      TouchKeepsInv(View(), latest, meta.file, now);
      entries := Touch(entries, meta.file, now);
      return Some(raw), false;
    }

    /** A JSON read that nothing interrupts. */
    method GetJSON(key: string, now: int, readOk: bool, parseOk: bool)
      returns (answer: Option<string>, dropQueued: bool)
      requires Valid()
      modifies `entries
      ensures Valid()
      ensures answer == GetAnswer(old(View()), key, true, now, readOk && parseOk)
      ensures View() == GetState(old(View()), key, true, now, readOk && parseOk)
      ensures answer.Some? ==> key in latest && latest[key] == Payload(true, answer.value)
      ensures dropQueued <==>
        var m := Find(old(entries), key);
        m.Some? && m.value.isJson && (IsStale(m.value, now) || m.value.file !in disk || !readOk)
    {
      var meta;
      meta, dropQueued := BeginGetJSON(key, now);
      if meta == None {
        return None, dropQueued;
      }
      answer, dropQueued := FinishGetJSON(meta.value, now, readOk, parseOk, latest[key].contents);
    }

    /** The queued clean-up: whatever entry the key has by then is removed. */
    method RunQueuedDrop(key: string)
      requires Valid()
      modifies `entries, `totalBytes, `disk
      ensures DropStep(old(View()), key, View())
      ensures Valid()
    {
      ghost var c := View();
      FindMember(entries, key);
      var found := Find(entries, key);
      if found.Some? {
        RemoveEntry(found.value, disk);
      } else {
        DropAbsent(entries, key);
      }
      DropKeepsInv(c, latest, key, View());
    }

    /** The cached copy of a media file, if it is there and unexpired; a hit is counted. */
    method CachedMediaFile(key: string, now: int) returns (file: Option<File>)
      requires Valid()
      modifies `entries
      ensures Valid()
      ensures View() == GetState(old(View()), key, false, now, true)
      ensures file.Some? <==> GetAnswer(old(View()), key, false, now, true).Some?
      ensures file.Some? ==> key in latest && file.value in disk && latest[key] == Payload(false, disk[file.value])
    {
      FindMember(entries, key);
      file := None;
      var found := Find(entries, key);
      if found.Some? && !found.value.isJson && !IsStale(found.value, now) {
        if found.value.file in disk {
          assert HoldsLatest(found.value, disk, latest);
          TouchKeepsInv(View(), latest, found.value.file, now);
          entries := Touch(entries, found.value.file, now);
          file := Some(found.value.file);
        }
      }
    }
  }
}
