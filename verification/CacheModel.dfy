/**
 The rotating cache as a state machine over its manifest and its disk, together with the
 plain map it must agree with: `latest` maps each key to the last payload put under it.
 */
module CacheModel {
  import opened CacheEviction
  import opened Wrappers

  /** The manifest (entries in insertion order, byte total, file counter) and the payload files. */
  datatype Cache = Cache(entries: seq<Meta>, totalBytes: int, counter: nat, disk: map<File, string>)

  datatype Payload = Payload(isJson: bool, contents: string)

  type PlainMap = map<string, Payload>

  const EMPTY: Cache := Cache([], 0, 0, map[])

  // ----- lookups -----

  function Find(entries: seq<Meta>, key: string): Option<Meta> {
    if entries == [] then None
    else if entries[0].key == key then Some(entries[0])
    else Find(entries[1..], key)
  }

  lemma {:induction false} FindMember(entries: seq<Meta>, key: string)
    ensures Find(entries, key).Some? ==> Find(entries, key).value in entries && Find(entries, key).value.key == key
    ensures Find(entries, key) == None ==> forall m :: m in entries ==> m.key != key
  {
    if entries != [] {
      FindMember(entries[1..], key);
    }
  }

  /** Bumps the hit count and the access time of the entry stored in this file, if it is still there. */
  function Touch(entries: seq<Meta>, file: File, now: int): (touched: seq<Meta>)
    ensures |touched| == |entries|
    ensures forall i :: 0 <= i < |entries| ==>
      touched[i] == if entries[i].file == file then entries[i].(hits := entries[i].hits + 1, lastAccess := now)
                    else entries[i]
  {
    seq(|entries|, i requires 0 <= i < |entries| =>
      if entries[i].file == file then entries[i].(hits := entries[i].hits + 1, lastAccess := now) else entries[i])
  }

  // ----- the invariant -----

  predicate DistinctFiles(entries: seq<Meta>) {
    forall i, j :: 0 <= i < j < |entries| ==> entries[i].file.number != entries[j].file.number
  }

  /** Each entry's payload, while its file is there, is the latest put under its key. */
  predicate HoldsLatest(m: Meta, disk: map<File, string>, latest: PlainMap) {
    && m.key in latest
    && latest[m.key].isJson == m.isJson
    && (m.file in disk ==> disk[m.file] == latest[m.key].contents)
  }

  predicate FilesNumbered(entries: seq<Meta>, counter: nat) {
    forall m :: m in entries ==> 1 <= m.file.number <= counter
  }

  predicate AllHoldLatest(entries: seq<Meta>, disk: map<File, string>, latest: PlainMap) {
    forall m :: m in entries ==> HoldsLatest(m, disk, latest)
  }

  predicate Inv(c: Cache, latest: PlainMap) {
    && DistinctKeys(c.entries)
    && DistinctFiles(c.entries)
    && FilesNumbered(c.entries, c.counter)
    && AllHoldLatest(c.entries, c.disk, latest)
    && c.totalBytes == SumBytes(c.entries) <= BUDGET_BYTES
  }

  // ----- steps -----

  /** Deletions may fail, so files may linger; no file of a live entry is touched. */
  predicate OnlyDeleted(before: map<File, string>, after: map<File, string>, live: seq<Meta>) {
    && after.Keys <= before.Keys
    && (forall f :: f in after ==> after[f] == before[f])
    && (forall m :: m in live && m.file in before ==> m.file in after)
  }

  datatype Put = Put(
    key: string,
    payload: Payload,
    bytes: nat,
    tier: Tier,
    evictAt: int,     // the clock when room is made
    now: int,         // the clock when the entry is recorded
    written: bool)    // whether the payload file was written

  function PutFile(c: Cache, p: Put): File {
    File(c.counter + 1, if p.payload.isJson then Dat else Bin)
  }

  function PutMeta(c: Cache, p: Put): Meta {
    Meta(p.key, PutFile(c, p), p.bytes, p.tier, p.payload.isJson, p.now, 1, p.now)
  }

  /** The entries after a put: the old entry of the key goes first, then room is made,
      and the new entry is added if its file was written. */
  function PutEntries(c: Cache, p: Put): seq<Meta> {
    var left := Survivors(DropKey(c.entries, p.key), p.bytes, p.evictAt);
    if p.bytes <= BUDGET_BYTES && p.written then left + [PutMeta(c, p)] else left
  }

  predicate PutStep(c: Cache, p: Put, c': Cache) {
    var left := Survivors(DropKey(c.entries, p.key), p.bytes, p.evictAt);
    && c'.entries == PutEntries(c, p)
    && c'.totalBytes == SumBytes(c'.entries)
    && c'.counter == (if p.bytes <= BUDGET_BYTES then c.counter + 1 else c.counter)
    && if p.bytes > BUDGET_BYTES then OnlyDeleted(c.disk, c'.disk, left)
       else
         // a failed write may leave anything under the new file name
         && OnlyDeleted(c.disk - {PutFile(c, p)}, c'.disk - {PutFile(c, p)}, left)
         && (p.written ==> PutFile(c, p) in c'.disk && c'.disk[PutFile(c, p)] == p.payload.contents)
  }

  /** Removing the entry of a key, as a queued clean-up does. */
  predicate DropStep(c: Cache, key: string, c': Cache) {
    && c'.entries == DropKey(c.entries, key)
    && c'.totalBytes == SumBytes(c'.entries)
    && c'.counter == c.counter
    && OnlyDeleted(c.disk, c'.disk, c'.entries)
  }

  /** The entry a read begins from: present, of the right sort, and not expired. */
  function Found(c: Cache, key: string, isJson: bool, now: int): (m: Option<Meta>)
    ensures m.Some? ==> Find(c.entries, key) == m && m.value.isJson == isJson && !IsStale(m.value, now)
  {
    match Find(c.entries, key)
    case None => None
    case Some(m) => if m.isJson == isJson && !IsStale(m, now) then Some(m) else None
  }

  /** What a read answers that began from this entry and finds this disk. `readable` tells whether the
      file read and its parse succeed. */
  function ReadFile(m: Option<Meta>, disk: map<File, string>, readable: bool): (r: Option<string>)
    ensures r.Some? ==> m.Some? && m.value.file in disk && r.value == disk[m.value.file]
  {
    match m
    case None => None
    case Some(found) => if found.file in disk && readable then Some(disk[found.file]) else None
  }

  /** An uninterrupted read: its answer, and the state it leaves (a hit is counted, anything else
      changes nothing). */
  function GetAnswer(c: Cache, key: string, isJson: bool, now: int, readable: bool): (r: Option<string>)
    ensures r.Some? ==> Found(c, key, isJson, now).Some?
  {
    ReadFile(Found(c, key, isJson, now), c.disk, readable)
  }

  function GetState(c: Cache, key: string, isJson: bool, now: int, readable: bool): Cache {
    if GetAnswer(c, key, isJson, now, readable).Some?
    then c.(entries := Touch(c.entries, Found(c, key, isJson, now).value.file, now))
    else c
  }

  datatype Op =
    | DoPut(put: Put)
    | DoDrop(key: string)
    | DoGet(key: string, isJson: bool, now: int, readable: bool)
    | DoTouch(file: File, now: int)   // the end of a read that other steps interrupted
    | FilesVanish

  predicate Step(c: Cache, latest: PlainMap, op: Op, c': Cache, latest': PlainMap) {
    match op
    case DoPut(p) => PutStep(c, p, c') && latest' == latest[p.key := p.payload]
    case DoDrop(key) => DropStep(c, key, c') && latest' == latest
    case DoGet(key, isJson, now, readable) => c' == GetState(c, key, isJson, now, readable) && latest' == latest
    case DoTouch(file, now) => c' == c.(entries := Touch(c.entries, file, now)) && latest' == latest
    case FilesVanish =>
      && c' == c.(disk := c'.disk)
      && c'.disk.Keys <= c.disk.Keys && (forall f :: f in c'.disk ==> c'.disk[f] == c.disk[f])
      && latest' == latest
  }

  // ----- every step keeps the invariant -----

  lemma {:induction false} SumAppend(entries: seq<Meta>, m: Meta)
    ensures SumBytes(entries + [m]) == SumBytes(entries) + m.bytes
  {
    if entries == [] {
      assert entries + [m] == [m];
      assert SumBytes([m]) == m.bytes + SumBytes([m][1..]);
    } else {
      SumAppend(entries[1..], m);
      assert (entries + [m])[1..] == entries[1..] + [m];
    }
  }

  ghost predicate DistinctFilesIn(entries: seq<Meta>) {
    forall a, b :: a in entries && b in entries && a.key != b.key ==> a.file.number != b.file.number
  }

  lemma FilesByMembers(entries: seq<Meta>)
    requires DistinctKeys(entries)
    ensures DistinctFiles(entries) <==> DistinctFilesIn(entries)
  {
    if DistinctFilesIn(entries) {
      forall i, j | 0 <= i < j < |entries|
        ensures entries[i].file.number != entries[j].file.number
      {
        assert entries[i] in entries && entries[j] in entries;
      }
    }
    if DistinctFiles(entries) {
      forall a, b | a in entries && b in entries && a.key != b.key
        ensures a.file.number != b.file.number
      {
        var i :| 0 <= i < |entries| && entries[i] == a;
        var j :| 0 <= j < |entries| && entries[j] == b;
        assert i < j || j < i;
      }
    }
  }

  lemma SurvivorMembers(entries: seq<Meta>, incoming: nat, now: int)
    requires DistinctKeys(entries)
    ensures DistinctKeys(Survivors(entries, incoming, now))
    ensures forall m :: m in Survivors(entries, incoming, now) ==> m in entries
  {
    FreshMembers(entries, now);
    if incoming <= BUDGET_BYTES {
      KeepMembers(Fresh(entries, now), Victims(entries, incoming, now));
    }
  }

  /** A sublist of the entries keeps the list part of the invariant. */
  lemma SublistKeepsFiles(entries: seq<Meta>, sub: seq<Meta>)
    requires DistinctKeys(entries) && DistinctFiles(entries) && DistinctKeys(sub)
    requires forall m :: m in sub ==> m in entries
    ensures DistinctFiles(sub)
  {
    FilesByMembers(entries);
    FilesByMembers(sub);
  }

  lemma {:induction false} DropSum(entries: seq<Meta>, key: string)
    ensures SumBytes(DropKey(entries, key)) <= SumBytes(entries)
  {
    if entries != [] {
      DropSum(entries[1..], key);
      var rest := DropKey(entries[1..], key);
      assert ([entries[0]] + rest)[1..] == rest;
      assert [] + rest == rest;
    }
  }

  lemma PutLeft(c: Cache, latest: PlainMap, p: Put)
    requires Inv(c, latest)
    ensures var left := Survivors(DropKey(c.entries, p.key), p.bytes, p.evictAt);
      && DistinctKeys(left) && DistinctFiles(left)
      && (forall m :: m in left ==> m in c.entries && m.key != p.key)
      && SumBytes(left) <= BUDGET_BYTES
      && (p.bytes <= BUDGET_BYTES ==> SumBytes(left) + p.bytes <= BUDGET_BYTES)
  {
    var without := DropKey(c.entries, p.key);
    DropKeyMembers(c.entries, p.key);
    SurvivorMembers(without, p.bytes, p.evictAt);
    SublistKeepsFiles(c.entries, Survivors(without, p.bytes, p.evictAt));
    FitsIffWithinBudget(without, p.bytes, p.evictAt);
    DropSum(c.entries, p.key);
  }

  lemma PutKeepsContents(c: Cache, latest: PlainMap, p: Put, left: seq<Meta>, disk': map<File, string>)
    requires FilesNumbered(c.entries, c.counter) && AllHoldLatest(c.entries, c.disk, latest)
    requires forall m :: m in left ==> m in c.entries && m.key != p.key
    requires forall f :: f in disk' && f != PutFile(c, p) ==> f in c.disk && disk'[f] == c.disk[f]
    ensures FilesNumbered(left, c.counter)
    ensures AllHoldLatest(left, disk', latest[p.key := p.payload])
  {
    forall m | m in left
      ensures HoldsLatest(m, disk', latest[p.key := p.payload])
    {
      assert HoldsLatest(m, c.disk, latest);
      assert m.file != PutFile(c, p);
    }
  }

  lemma PutKeepsInv(c: Cache, latest: PlainMap, p: Put, c': Cache)
    requires Inv(c, latest) && PutStep(c, p, c')
    ensures Inv(c', latest[p.key := p.payload])
  {
    PutLeft(c, latest, p);
    var left, latest' := Survivors(DropKey(c.entries, p.key), p.bytes, p.evictAt), latest[p.key := p.payload];
    forall f | f in c'.disk && f != PutFile(c, p)
      ensures f in c.disk && c'.disk[f] == c.disk[f]
    {
      if p.bytes <= BUDGET_BYTES {
        assert f in c'.disk - {PutFile(c, p)};
      }
    }
    PutKeepsContents(c, latest, p, left, c'.disk);
    if p.bytes <= BUDGET_BYTES && p.written {
      PutNewEntry(c, latest', p, c', left);
    }
  }

  lemma PutNewEntry(c: Cache, latest': PlainMap, p: Put, c': Cache, left: seq<Meta>)
    requires DistinctKeys(left) && DistinctFiles(left)
    requires forall m :: m in left ==> m.key != p.key
    requires FilesNumbered(left, c.counter) && AllHoldLatest(left, c'.disk, latest')
    requires p.key in latest' && latest'[p.key] == p.payload
    requires c'.entries == left + [PutMeta(c, p)] && c'.counter == c.counter + 1
    requires PutFile(c, p) in c'.disk && c'.disk[PutFile(c, p)] == p.payload.contents
    requires SumBytes(left) + p.bytes <= BUDGET_BYTES && c'.totalBytes == SumBytes(c'.entries)
    ensures Inv(c', latest')
  {
    SumAppend(left, PutMeta(c, p));
    assert forall i :: 0 <= i < |left| ==> left[i] in left;
  }

  lemma DropKeepsInv(c: Cache, latest: PlainMap, key: string, c': Cache)
    requires Inv(c, latest) && DropStep(c, key, c')
    ensures Inv(c', latest)
  {
    DropKeyMembers(c.entries, key);
    SublistKeepsFiles(c.entries, c'.entries);
    DropSum(c.entries, key);
    forall m | m in c'.entries
      ensures HoldsLatest(m, c'.disk, latest)
    {
      assert HoldsLatest(m, c.disk, latest);
    }
  }

  lemma {:induction false} SumTouch(entries: seq<Meta>, file: File, now: int)
    ensures SumBytes(Touch(entries, file, now)) == SumBytes(entries)
  {
    if entries != [] {
      SumTouch(entries[1..], file, now);
      assert Touch(entries, file, now)[1..] == Touch(entries[1..], file, now);
    }
  }

  lemma TouchKeepsInv(c: Cache, latest: PlainMap, file: File, now: int)
    requires Inv(c, latest)
    ensures Inv(c.(entries := Touch(c.entries, file, now)), latest)
  {
    SumTouch(c.entries, file, now);
    var touched := Touch(c.entries, file, now);
    forall i | 0 <= i < |touched|
      ensures HoldsLatest(touched[i], c.disk, latest) && 1 <= touched[i].file.number <= c.counter
    {
      assert c.entries[i] in c.entries;
      assert HoldsLatest(c.entries[i], c.disk, latest);
    }
  }

  lemma StepKeepsInv(c: Cache, latest: PlainMap, op: Op, c': Cache, latest': PlainMap)
    requires Inv(c, latest) && Step(c, latest, op, c', latest')
    ensures Inv(c', latest')
  {
    match op
    case DoPut(p) => PutKeepsInv(c, latest, p, c');
    case DoDrop(key) => DropKeepsInv(c, latest, key, c');
    case DoGet(key, isJson, now, readable) =>
      if GetAnswer(c, key, isJson, now, readable).Some? {
        TouchKeepsInv(c, latest, Found(c, key, isJson, now).value.file, now);
      }
    case DoTouch(file, now) => TouchKeepsInv(c, latest, file, now);
    case FilesVanish =>
      forall m | m in c.entries
        ensures HoldsLatest(m, c'.disk, latest)
      {
        assert HoldsLatest(m, c.disk, latest);
      }
  }

  // ----- whole runs -----

  /** A run from the empty cache: `states[i]` and `maps[i]` before `ops[i]`. */
  predicate IsRun(states: seq<Cache>, maps: seq<PlainMap>, ops: seq<Op>) {
    && |states| == |maps| == |ops| + 1
    && states[0] == EMPTY && maps[0] == map[]
    && forall i :: 0 <= i < |ops| ==> Step(states[i], maps[i], ops[i], states[i + 1], maps[i + 1])
  }

  /** In every reachable state the bytes add up within the budget, live entries own distinct files
      numbered at most the counter, and each holds the latest payload of its own key. */
  lemma {:induction false} EveryReachableStateGood(states: seq<Cache>, maps: seq<PlainMap>, ops: seq<Op>, i: nat)
    requires IsRun(states, maps, ops) && i <= |ops|
    ensures Inv(states[i], maps[i])
  {
    if i > 0 {
      EveryReachableStateGood(states, maps, ops, i - 1);
      StepKeepsInv(states[i - 1], maps[i - 1], ops[i - 1], states[i], maps[i]);
    }
  }

  /** In every run, a read answers with nothing or with the latest payload put under that very key. */
  lemma ReadsAgreeWithPlainMap(states: seq<Cache>, maps: seq<PlainMap>, ops: seq<Op>, i: nat)
    requires IsRun(states, maps, ops) && i < |ops| && ops[i].DoGet?
    ensures var key, answer := ops[i].key, GetAnswer(states[i], ops[i].key, ops[i].isJson, ops[i].now, ops[i].readable);
      answer.Some? ==> key in maps[i] && maps[i][key] == Payload(ops[i].isJson, answer.value)
  {
    EveryReachableStateGood(states, maps, ops, i);
    if Found(states[i], ops[i].key, ops[i].isJson, ops[i].now).Some? {
      FoundPromises(states[i], maps[i], ops[i].key, ops[i].isJson, ops[i].now);
    }
  }

  /** The file promises this payload: its name is in use already, so no later put writes to it, and as
      long as it is there it has these contents. */
  predicate Promises(c: Cache, file: File, contents: string) {
    file.number <= c.counter && (file in c.disk ==> c.disk[file] == contents)
  }

  /** Whatever step comes between, the promise is kept. */
  lemma StepKeepsPromise(c: Cache, latest: PlainMap, op: Op, c': Cache, latest': PlainMap, file: File, contents: string)
    requires Step(c, latest, op, c', latest') && Promises(c, file, contents)
    ensures Promises(c', file, contents)
  {
    if op.DoPut? && file in c'.disk && op.put.bytes <= BUDGET_BYTES {
      assert file != PutFile(c, op.put);
      assert file in c'.disk - {PutFile(c, op.put)};
    }
  }

  lemma {:induction false} RunKeepsPromise(states: seq<Cache>, maps: seq<PlainMap>, ops: seq<Op>, i: nat, j: nat,
                                           file: File, contents: string)
    requires IsRun(states, maps, ops) && i <= j <= |ops|
    requires Promises(states[i], file, contents)
    ensures Promises(states[j], file, contents)
    decreases j - i
  {
    if i < j {
      RunKeepsPromise(states, maps, ops, i, j - 1, file, contents);
      StepKeepsPromise(states[j - 1], maps[j - 1], ops[j - 1], states[j], maps[j], file, contents);
    }
  }

  lemma FoundPromises(c: Cache, latest: PlainMap, key: string, isJson: bool, now: int)
    requires Inv(c, latest) && Found(c, key, isJson, now).Some?
    ensures key in latest && latest[key].isJson == isJson
    ensures Promises(c, Found(c, key, isJson, now).value.file, latest[key].contents)
  {
    FindMember(c.entries, key);
    assert HoldsLatest(Found(c, key, isJson, now).value, c.disk, latest);
  }

  /** A read that other steps interrupt, between finding its entry and reading the file, answers with
      nothing or with the payload that was the latest of its key when it began: never with another
      key's, never with part of a newer one. */
  lemma InterruptedReadAgrees(states: seq<Cache>, maps: seq<PlainMap>, ops: seq<Op>, i: nat, j: nat,
                              key: string, isJson: bool, now: int, readable: bool)
    requires IsRun(states, maps, ops) && i <= j <= |ops|
    ensures var answer := ReadFile(Found(states[i], key, isJson, now), states[j].disk, readable);
      answer.Some? ==> key in maps[i] && maps[i][key] == Payload(isJson, answer.value)
  {
    EveryReachableStateGood(states, maps, ops, i);
    var found := Found(states[i], key, isJson, now);
    if found.Some? {
      FoundPromises(states[i], maps[i], key, isJson, now);
      RunKeepsPromise(states, maps, ops, i, j, found.value.file, maps[i][key].contents);
    }
  }

  /** `maps` is indeed the plain map: after any run, a key maps to its last put. */
  function LastPut(ops: seq<Op>, key: string): Option<Payload> {
    if ops == [] then None
    else
      var op := ops[|ops| - 1];
      if op.DoPut? && op.put.key == key then Some(op.put.payload) else LastPut(ops[..|ops| - 1], key)
  }

  lemma {:induction false} PlainMapIsLastPut(states: seq<Cache>, maps: seq<PlainMap>, ops: seq<Op>, i: nat, key: string)
    requires IsRun(states, maps, ops) && i <= |ops|
    ensures LastPut(ops[..i], key) == if key in maps[i] then Some(maps[i][key]) else None
  {
    if i > 0 {
      PlainMapIsLastPut(states, maps, ops, i - 1, key);
      assert ops[..i][..i - 1] == ops[..i - 1];
    }
  }

  /** Right after a put its key reads back exactly when the item fit the budget, its file was written
      and it has not expired; and what is read is that payload. */
  lemma FreshPutIsRead(c: Cache, latest: PlainMap, p: Put, c': Cache, at: int)
    requires Inv(c, latest) && PutStep(c, p, c')
    ensures GetAnswer(c', p.key, p.payload.isJson, at, true).Some?
       <==> p.bytes <= BUDGET_BYTES && p.written
            && at - p.now <= (if p.tier == Media then MEDIA_MAX_AGE_MS else JSON_MAX_AGE_MS)
    ensures GetAnswer(c', p.key, p.payload.isJson, at, true).Some?
       ==> GetAnswer(c', p.key, p.payload.isJson, at, true).value == p.payload.contents
  {
    PutLeft(c, latest, p);
    var left := Survivors(DropKey(c.entries, p.key), p.bytes, p.evictAt);
    FindMember(c'.entries, p.key);
    FindAppended(left, PutMeta(c, p));
  }

  // ----- a run that breaks the documented promise -----

  const ME: string := "GET:/v1/me"
  const PICTURE: string := "MEDIA:picture"

  /** The user's own profile and a picture are stored, the profile is read on the last moment of its
      seventh day, and then a response of one byte is stored. */
  function ExpiredPinOps(): (ops: seq<Op>)
    ensures |ops| == 4
  {
    [ DoPut(Put(ME, Payload(true, "{}"), 2, Pinned, 0, 0, true)),
      DoPut(Put(PICTURE, Payload(false, "p"), 1, Media, 0, 0, true)),
      DoGet(ME, true, JSON_MAX_AGE_MS, true),
      DoPut(Put("GET:/v1/x", Payload(true, "1"), 1, Normal, JSON_MAX_AGE_MS + 1, JSON_MAX_AGE_MS + 1, true)) ]
  }

  lemma ShortSums(a: Meta, b: Meta)
    ensures SumBytes([a]) == a.bytes && SumBytes([a, b]) == a.bytes + b.bytes
  {
    assert [a][1..] == [] && [a, b][1..] == [b] && [b][1..] == [];
    assert SumBytes([a]) == a.bytes + SumBytes([]) && SumBytes([b]) == b.bytes + SumBytes([]);
  }

  lemma ShortFresh(a: Meta, b: Meta, now: int)
    requires !IsStale(b, now)
    ensures Fresh([b], now) == [b]
    ensures Fresh([a, b], now) == if IsStale(a, now) then [b] else [a, b]
  {
    assert [a, b][1..] == [b] && [b][1..] == [];
    assert Fresh([b], now) == [b] + Fresh([], now);
    assert Fresh([a, b], now) == (if IsStale(a, now) then [] else [a]) + Fresh([b], now);
  }

  /** A put that is written into a cache with room for it, when no old file is deleted. */
  function AfterPut(c: Cache, p: Put): Cache {
    var entries := Fresh(c.entries, p.evictAt) + [PutMeta(c, p)];
    Cache(entries, SumBytes(entries), c.counter + 1, c.disk[PutFile(c, p) := p.payload.contents])
  }

  /** For a new key the expired entries go, and nothing else. */
  lemma AfterPutIsStep(c: Cache, p: Put)
    requires forall m :: m in c.entries ==> m.key != p.key
    requires SumBytes(c.entries) + p.bytes <= BUDGET_BYTES && p.written
    ensures PutStep(c, p, AfterPut(c, p))
  {
    DropAbsent(c.entries, p.key);
    NothingButStaleGoes(c.entries, p.bytes, p.evictAt);
  }

  const MY_PROFILE: Meta := Meta(ME, File(1, Dat), 2, Pinned, true, 0, 1, 0)
  const MY_PICTURE: Meta := Meta(PICTURE, File(2, Bin), 1, Media, false, 0, 1, 0)

  lemma SecondPut(c: Cache) returns (c': Cache)
    requires c.entries == [MY_PROFILE] && c.counter == 1 && MY_PROFILE.file in c.disk
    ensures PutStep(c, ExpiredPinOps()[1].put, c')
    ensures c'.entries == [MY_PROFILE, MY_PICTURE] && MY_PROFILE.file in c'.disk
  {
    c' := AfterPut(c, ExpiredPinOps()[1].put);
    ShortSums(MY_PROFILE, MY_PICTURE);
    ShortFresh(MY_PROFILE, MY_PROFILE, 0);
    AfterPutIsStep(c, ExpiredPinOps()[1].put);
  }

  lemma LastPutDrops(c: Cache, x: Put, read: Meta, picture: Meta)
    requires x == ExpiredPinOps()[3].put && c.entries == [read, picture]
    requires read.key == ME && picture.key == PICTURE && read.tier == Pinned && picture.tier == Media
    requires read.bytes == 2 && picture.bytes == 1 && read.createdAt == picture.createdAt == 0
    ensures PutStep(c, x, AfterPut(c, x)) && AfterPut(c, x).entries == [picture, PutMeta(c, x)]
    ensures SumBytes(c.entries) == 3 && Survivors(c.entries, 1, JSON_MAX_AGE_MS + 1) == [picture]
  {
    ShortSums(read, picture);
    ShortFresh(read, picture, JSON_MAX_AGE_MS + 1);
    AfterPutIsStep(c, x);
    NothingButStaleGoes(c.entries, 1, JSON_MAX_AGE_MS + 1);
  }

  lemma FourSteps(ops: seq<Op>, s1: Cache, s2: Cache, s3: Cache, s4: Cache,
                  m1: PlainMap, m2: PlainMap, m3: PlainMap, m4: PlainMap)
    requires |ops| == 4
    requires Step(EMPTY, map[], ops[0], s1, m1) && Step(s1, m1, ops[1], s2, m2)
    requires Step(s2, m2, ops[2], s3, m3) && Step(s3, m3, ops[3], s4, m4)
    ensures IsRun([EMPTY, s1, s2, s3, s4], [map[], m1, m2, m3, m4], ops)
  {
    var states, maps := [EMPTY, s1, s2, s3, s4], [map[], m1, m2, m3, m4];
    forall i | 0 <= i < 4
      ensures Step(states[i], maps[i], ops[i], states[i + 1], maps[i + 1])
    {
      assert i == 0 || i == 1 || i == 2 || i == 3;
    }
  }

  /** What the last two states of that run hold. */
  predicate GoesFirst(before: seq<Meta>, after: seq<Meta>, now: int) {
    && |before| == 2 && before[0].key == ME && before[0].tier == Pinned
    && before[0].hits == 2 && before[0].lastAccess == now - 1
    && before[1].key == PICTURE && before[1].tier == Media && SumBytes(before) == 3
    && |after| == 2 && after[0] == before[1] && before[0] !in after
    && !PinnedGoLast(before, 1, now) && !PinnedPromise(before, 1, now)
  }

  lemma FirstTwoSteps() returns (s1: Cache, m1: PlainMap, s2: Cache, m2: PlainMap)
    ensures Step(EMPTY, map[], ExpiredPinOps()[0], s1, m1) && Step(s1, m1, ExpiredPinOps()[1], s2, m2)
    ensures s2.entries == [MY_PROFILE, MY_PICTURE] && MY_PROFILE.file in s2.disk
  {
    var p, u := ExpiredPinOps()[0].put, ExpiredPinOps()[1].put;
    s1 := AfterPut(EMPTY, p);
    assert Fresh([], 0) == [];
    AfterPutIsStep(EMPTY, p);
    s2 := SecondPut(s1);
    m1 := map[p.key := p.payload];
    m2 := m1[u.key := u.payload];
  }

  lemma LastTwoSteps(s2: Cache, m2: PlainMap) returns (s3: Cache, s4: Cache, m4: PlainMap)
    requires s2.entries == [MY_PROFILE, MY_PICTURE] && MY_PROFILE.file in s2.disk
    ensures Step(s2, m2, ExpiredPinOps()[2], s3, m2) && Step(s3, m2, ExpiredPinOps()[3], s4, m4)
    ensures GoesFirst(s3.entries, s4.entries, JSON_MAX_AGE_MS + 1)
  {
    var x := ExpiredPinOps()[3].put;
    var read := MY_PROFILE.(hits := 2, lastAccess := JSON_MAX_AGE_MS);
    s3 := GetState(s2, ME, true, JSON_MAX_AGE_MS, true);
    s4 := AfterPut(s3, x);
    m4 := m2[x.key := x.payload];
    LastPutDrops(s3, x, read, MY_PICTURE);
  }

  /** In this run a pinned entry, read on the last millisecond before it expires, goes although all but a
      few bytes of the budget are free, while a picture just as old stays. */
  lemma ExpiredPinGoesFirst() returns (states: seq<Cache>, maps: seq<PlainMap>)
    ensures IsRun(states, maps, ExpiredPinOps())
    ensures GoesFirst(states[3].entries, states[4].entries, JSON_MAX_AGE_MS + 1)
  {
    var s1, m1, s2, m2 := FirstTwoSteps();
    var s3, s4, m4 := LastTwoSteps(s2, m2);
    FourSteps(ExpiredPinOps(), s1, s2, s3, s4, m1, m2, m2, m4);
    states, maps := [EMPTY, s1, s2, s3, s4], [map[], m1, m2, m2, m4];
  }

  // ----- entries against the history -----

  /** The read or late touch at step `k` counts as a hit of the entry of this key and file. */
  predicate IsHit(states: seq<Cache>, ops: seq<Op>, k: nat, key: string, file: File)
    requires k < |ops| && |states| == |ops| + 1
  {
    match ops[k]
    case DoGet(k', isJson, now, readable) => k' == key && GetAnswer(states[k], key, isJson, now, readable).Some?
    case DoTouch(touched, _) => touched == file
    case _ => false
  }

  function HitClock(op: Op): int {
    match op
    case DoGet(_, _, now, _) => now
    case DoTouch(_, now) => now
    case _ => 0
  }

  /** The hits between step `j` and step `i`. */
  function Hits(states: seq<Cache>, ops: seq<Op>, j: nat, i: nat, key: string, file: File): nat
    requires i <= |ops| && |states| == |ops| + 1
  {
    if i <= j + 1 then 0
    else Hits(states, ops, j, i - 1, key, file) + if IsHit(states, ops, i - 1, key, file) then 1 else 0
  }

  /** The clock of the last hit between step `j` and step `i`, or else of the put at step `j`. */
  function LastUse(states: seq<Cache>, ops: seq<Op>, j: nat, i: nat, key: string, file: File): int
    requires j < |ops| && ops[j].DoPut? && i <= |ops| && |states| == |ops| + 1
  {
    if i <= j + 1 then ops[j].put.now
    else if IsHit(states, ops, i - 1, key, file) then HitClock(ops[i - 1])
    else LastUse(states, ops, j, i - 1, key, file)
  }

  /** The entry is what the put at step `j`, the last that concerned its key, and the hits since then make it. */
  predicate Recorded(states: seq<Cache>, ops: seq<Op>, j: nat, i: nat, m: Meta)
    requires j < i <= |ops| && |states| == |ops| + 1
  {
    && ops[j].DoPut?
    && var p := ops[j].put;
    && p.written && p.bytes <= BUDGET_BYTES
    && m.key == p.key && m.bytes == p.bytes && m.tier == p.tier && m.isJson == p.payload.isJson
    && m.createdAt == p.now
    && (forall k :: j < k < i ==> ops[k] != DoDrop(m.key) && !(ops[k].DoPut? && ops[k].put.key == m.key))
    && m.hits == 1 + Hits(states, ops, j, i, m.key, m.file)
    && m.lastAccess == LastUse(states, ops, j, i, m.key, m.file)
  }

  lemma SameRecord(states: seq<Cache>, ops: seq<Op>, j: nat, i: nat, m: Meta)
    requires j + 1 < i <= |ops| && |states| == |ops| + 1
    requires Recorded(states, ops, j, i - 1, m)
    requires ops[i - 1] != DoDrop(m.key) && !(ops[i - 1].DoPut? && ops[i - 1].put.key == m.key)
    ensures Recorded(states, ops, j, i,
      if IsHit(states, ops, i - 1, m.key, m.file) then m.(hits := m.hits + 1, lastAccess := HitClock(ops[i - 1])) else m)
  {
  }

  /** Where an entry comes from: it has just been put, or it was there before, perhaps hit now. */
  lemma EntryBefore(c: Cache, latest: PlainMap, op: Op, c': Cache, latest': PlainMap, m: Meta) returns (m0: Meta)
    requires Inv(c, latest) && Step(c, latest, op, c', latest') && m in c'.entries
    requires !(op.DoPut? && op.put.key == m.key)
    ensures m0 in c.entries && op != DoDrop(m0.key) && m0.key == m.key && m0.file == m.file
    ensures m == if IsHit([c, c'], [op], 0, m0.key, m0.file)
                 then m0.(hits := m0.hits + 1, lastAccess := HitClock(op)) else m0
  {
    match op
    case DoPut(p) =>
      PutLeft(c, latest, p);
      m0 := m;
    case DoDrop(key) =>
      DropKeyMembers(c.entries, key);
      m0 := m;
    case DoGet(key, isJson, now, readable) =>
      FindMember(c.entries, key);
      m0 := TouchedFrom(c, c', m, Found(c, key, isJson, now), now, GetAnswer(c, key, isJson, now, readable).Some?);
    case DoTouch(file, now) =>
      var i :| 0 <= i < |c'.entries| && c'.entries[i] == m;
      m0 := c.entries[i];
    case FilesVanish =>
      m0 := m;
  }

  lemma TouchedFrom(c: Cache, c': Cache, m: Meta, found: Option<Meta>, now: int, hit: bool) returns (m0: Meta)
    requires DistinctFiles(c.entries) && DistinctKeys(c.entries) && m in c'.entries
    requires hit ==> found.Some? && found.value in c.entries && c'.entries == Touch(c.entries, found.value.file, now)
    requires !hit ==> c'.entries == c.entries
    ensures m0 in c.entries && m0.key == m.key && m0.file == m.file
    ensures m == if hit && m0.key == found.value.key then m0.(hits := m0.hits + 1, lastAccess := now) else m0
  {
    var i :| 0 <= i < |c'.entries| && c'.entries[i] == m;
    m0 := c.entries[i];
    if hit {
      FilesByMembers(c.entries);
      var f :| 0 <= f < |c.entries| && c.entries[f] == found.value;
      if f != i {
        assert c.entries[f].file.number != c.entries[i].file.number && c.entries[f].key != c.entries[i].key;
      }
    }
  }

  /** In every run each live entry is what the last put of its key says: size, tier, sort and time of
      creation are of that put; its hits are one and the reads since; and it was last used at the last
      of those, or when it was put. */
  lemma {:induction false} EntriesRecordHistory(states: seq<Cache>, maps: seq<PlainMap>, ops: seq<Op>, i: nat, m: Meta)
    returns (j: nat)
    requires IsRun(states, maps, ops) && i <= |ops| && m in states[i].entries
    ensures j < i && Recorded(states, ops, j, i, m)
  {
    var n := i - 1;
    EveryReachableStateGood(states, maps, ops, n);
    assert Step(states[n], maps[n], ops[n], states[n + 1], maps[n + 1]);
    if ops[n].DoPut? && ops[n].put.key == m.key {
      PutLeft(states[n], maps[n], ops[n].put);
      assert m == PutMeta(states[n], ops[n].put);
      j := n;
    } else {
      var m0 := EntryBefore(states[n], maps[n], ops[n], states[i], maps[i], m);
      j := EntriesRecordHistory(states, maps, ops, n, m0);
      SameRecord(states, ops, j, i, m0);
      assert IsHit([states[n], states[i]], [ops[n]], 0, m0.key, m0.file) == IsHit(states, ops, n, m0.key, m0.file);
    }
  }

  lemma {:induction false} FindAppended(entries: seq<Meta>, m: Meta)
    requires forall x :: x in entries ==> x.key != m.key
    ensures Find(entries + [m], m.key) == Some(m)
    ensures Find(entries, m.key) == None
  {
    if entries != [] {
      FindAppended(entries[1..], m);
      assert (entries + [m])[1..] == entries[1..] + [m];
    } else {
      assert entries + [m] == [m];
    }
  }
}
