/**
 The eviction policy of the rotating cache: scores, staleness, and the set of entries a
 call to `evictToFit` removes, which is the shortest sufficient prefix of one stable sort.
 */
module CacheEviction {
  import opened StableSort

  const BUDGET_BYTES: nat := 500 * 1024 * 1024
  const PINNED_BONUS: real := 1000000000000.0
  const JSON_MAX_AGE_MS: int := 7 * 24 * 60 * 60 * 1000
  const MEDIA_MAX_AGE_MS: int := 30 * 24 * 60 * 60 * 1000
  const MS_PER_HOUR: real := 3600000.0

  datatype Tier = Pinned | Normal | Media

  datatype Extension = Dat | Bin

  /** A payload file: its sequence number and its extension. */
  datatype File = File(number: nat, extension: Extension)

  datatype Meta = Meta(
    key: string,
    file: File,
    bytes: nat,
    tier: Tier,
    isJson: bool,
    lastAccess: int,
    hits: nat,
    createdAt: int)

  function AgeHours(m: Meta, now: int): (h: real)
    ensures h >= 0.0
  {
    (if now - m.lastAccess > 0 then now - m.lastAccess else 0) as real / MS_PER_HOUR
  }

  function BaseScore(m: Meta, now: int): real {
    (m.hits + 1) as real / (1.0 + AgeHours(m, now))
  }

  function ScoreOf(m: Meta, now: int): real {
    BaseScore(m, now) + (if m.tier == Pinned then PINNED_BONUS else 0.0)
  }

  function ScoreAt(now: int): Meta -> real { m => ScoreOf(m, now) }

  predicate IsStale(m: Meta, now: int) {
    now - m.createdAt > if m.tier == Media then MEDIA_MAX_AGE_MS else JSON_MAX_AGE_MS
  }

  // ----- entry lists: the manifest's entries in insertion order -----

  predicate DistinctKeys(entries: seq<Meta>) {
    forall i, j :: 0 <= i < j < |entries| ==> entries[i].key != entries[j].key
  }

  function SumBytes(entries: seq<Meta>): nat {
    if entries == [] then 0 else entries[0].bytes + SumBytes(entries[1..])
  }

  function DropKey(entries: seq<Meta>, key: string): seq<Meta> {
    if entries == [] then []
    else (if entries[0].key == key then [] else [entries[0]]) + DropKey(entries[1..], key)
  }

  function Fresh(entries: seq<Meta>, now: int): seq<Meta> {
    if entries == [] then []
    else (if IsStale(entries[0], now) then [] else [entries[0]]) + Fresh(entries[1..], now)
  }

  /** The entries that are not among `victims`, in order. */
  function Keep(entries: seq<Meta>, victims: seq<Meta>): seq<Meta> {
    if entries == [] then []
    else (if entries[0] in victims then [] else [entries[0]]) + Keep(entries[1..], victims)
  }

  lemma {:induction false} DropKeyMembers(entries: seq<Meta>, key: string)
    ensures forall m :: m in DropKey(entries, key) <==> m in entries && m.key != key
    ensures DistinctKeys(entries) ==> DistinctKeys(DropKey(entries, key))
  {
    if entries != [] {
      DropKeyMembers(entries[1..], key);
      if DistinctKeys(entries) {
        assert forall m :: m in entries[1..] ==> m.key != entries[0].key;
      }
    }
  }

  lemma {:induction false} DropAbsent(entries: seq<Meta>, key: string)
    requires forall m :: m in entries ==> m.key != key
    ensures DropKey(entries, key) == entries
  {
    if entries != [] {
      DropAbsent(entries[1..], key);
      assert entries == [entries[0]] + entries[1..];
    }
  }

  /** With distinct keys, deleting by key removes that entry and its bytes. */
  lemma {:induction false} DropIsRemove(entries: seq<Meta>, m: Meta)
    requires DistinctKeys(entries) && m in entries
    ensures DropKey(entries, m.key) == Remove(entries, m)
    ensures SumBytes(DropKey(entries, m.key)) + m.bytes == SumBytes(entries)
    ensures |DropKey(entries, m.key)| == |entries| - 1
  {
    if entries[0] == m {
      assert forall x :: x in entries[1..] ==> x.key != m.key;
      DropAbsent(entries[1..], m.key);
    } else {
      var i :| 0 <= i < |entries| && entries[i] == m;
      assert entries[1..][i - 1] == m;
      DropIsRemove(entries[1..], m);
    }
  }

  lemma {:induction false} FreshMembers(entries: seq<Meta>, now: int)
    ensures forall m :: m in Fresh(entries, now) <==> m in entries && !IsStale(m, now)
    ensures DistinctKeys(entries) ==> DistinctKeys(Fresh(entries, now))
  {
    if entries != [] {
      FreshMembers(entries[1..], now);
      if DistinctKeys(entries) {
        assert forall m :: m in entries[1..] ==> m.key != entries[0].key;
      }
    }
  }

  lemma {:induction false} KeepMembers(entries: seq<Meta>, victims: seq<Meta>)
    ensures forall m :: m in Keep(entries, victims) <==> m in entries && m !in victims
    ensures DistinctKeys(entries) ==> DistinctKeys(Keep(entries, victims))
  {
    if entries != [] {
      KeepMembers(entries[1..], victims);
      if DistinctKeys(entries) {
        assert forall m :: m in entries[1..] ==> m.key != entries[0].key;
      }
    }
  }

  lemma {:induction false} KeepIsFresh(entries: seq<Meta>, victims: seq<Meta>, now: int)
    requires forall m :: m in entries ==> (m in victims <==> IsStale(m, now))
    ensures Keep(entries, victims) == Fresh(entries, now)
  {
    if entries != [] {
      KeepIsFresh(entries[1..], victims, now);
    }
  }

  lemma {:induction false} KeepNone(entries: seq<Meta>)
    ensures Keep(entries, []) == entries
  {
    if entries != [] {
      KeepNone(entries[1..]);
      assert entries == [entries[0]] + entries[1..];
    }
  }

  /** One more victim is one more deletion. */
  lemma {:induction false} KeepSnoc(entries: seq<Meta>, victims: seq<Meta>, v: Meta)
    requires forall m :: m in entries ==> (m.key == v.key ==> m == v)
    ensures Keep(entries, victims + [v]) == DropKey(Keep(entries, victims), v.key)
  {
    if entries != [] {
      KeepSnoc(entries[1..], victims, v);
      var rest := Keep(entries[1..], victims);
      if entries[0] in victims {
        assert Keep(entries, victims) == rest;
      } else {
        assert Keep(entries, victims) == [entries[0]] + rest;
        assert ([entries[0]] + rest)[1..] == rest;
      }
    }
  }

  lemma {:induction false} SumInsert(x: Meta, sorted: seq<Meta>, key: Meta -> real)
    ensures SumBytes(Insert(x, sorted, key)) == x.bytes + SumBytes(sorted)
  {
    if sorted != [] && key(x) > key(sorted[0]) {
      SumInsert(x, sorted[1..], key);
    } else {
      assert ([x] + sorted)[1..] == sorted;
    }
  }

  lemma {:induction false} SumSort(entries: seq<Meta>, key: Meta -> real)
    ensures SumBytes(Sort(entries, key)) == SumBytes(entries)
    ensures |Sort(entries, key)| == |entries|
  {
    if entries != [] {
      SumSort(entries[1..], key);
      SumInsert(entries[0], Sort(entries[1..], key), key);
      SortAscending(entries, key);
      assert |multiset(Sort(entries, key))| == |Sort(entries, key)| && |multiset(entries)| == |entries|;
    }
  }

  // ----- the policy -----

  /** How many of the lowest-scored entries must go for the rest and `incoming` to fit. */
  function Shortest(sorted: seq<Meta>, incoming: nat): (n: nat)
    ensures n <= |sorted|
  {
    if sorted == [] || SumBytes(sorted) + incoming <= BUDGET_BYTES then 0
    else 1 + Shortest(sorted[1..], incoming)
  }

  function Ranked(entries: seq<Meta>, now: int): seq<Meta> {
    Sort(Fresh(entries, now), ScoreAt(now))
  }

  function Victims(entries: seq<Meta>, incoming: nat, now: int): seq<Meta> {
    var ranked := Ranked(entries, now);
    ranked[..Shortest(ranked, incoming)]
  }

  /** What is left of the entries after making room for `incoming` bytes. */
  function Survivors(entries: seq<Meta>, incoming: nat, now: int): seq<Meta> {
    if incoming > BUDGET_BYTES then entries
    else Keep(Fresh(entries, now), Victims(entries, incoming, now))
  }

  lemma {:induction false} ShortestIsLeast(sorted: seq<Meta>, incoming: nat)
    requires incoming <= BUDGET_BYTES
    ensures SumBytes(sorted[Shortest(sorted, incoming)..]) + incoming <= BUDGET_BYTES
    ensures forall k :: 0 <= k < Shortest(sorted, incoming) ==> SumBytes(sorted[k..]) + incoming > BUDGET_BYTES
  {
    var n := Shortest(sorted, incoming);
    assert sorted[0..] == sorted;
    if n > 0 {
      ShortestIsLeast(sorted[1..], incoming);
      assert sorted[1..][n - 1..] == sorted[n..];
      forall k | 0 <= k < n
        ensures SumBytes(sorted[k..]) + incoming > BUDGET_BYTES
      {
        if k > 0 {
          assert sorted[1..][k - 1..] == sorted[k..];
        }
      }
    }
  }

  /** Deleting the first of the sort leaves the rest of the sort. */
  lemma DropLeast(left: seq<Meta>, key: Meta -> real)
    requires DistinctKeys(left) && left != []
    ensures Sort(left, key) != [] && Sort(left, key)[0] in left
    ensures Sort(DropKey(left, Sort(left, key)[0].key), key) == Sort(left, key)[1..]
  {
    SortNonempty(left, key);
    SortWithoutMinimum(left, key);
    DropIsRemove(left, Sort(left, key)[0]);
  }

  lemma SplitAt(sorted: seq<Meta>, i: nat)
    requires i < |sorted|
    ensures sorted[..i + 1] == sorted[..i] + [sorted[i]]
    ensures sorted[i..] != [] && sorted[i..][0] == sorted[i] && sorted[i..][1..] == sorted[i + 1..]
    ensures SumBytes(sorted[i..]) == sorted[i].bytes + SumBytes(sorted[i + 1..])
  {
  }

  /** Removing minima one at a time, sorting afresh each time, walks down a single sort. */
  lemma {:induction false} RankOfKeep(entries: seq<Meta>, key: Meta -> real, i: nat)
    requires DistinctKeys(entries) && i <= |Sort(entries, key)|
    ensures DistinctKeys(Keep(entries, Sort(entries, key)[..i]))
    ensures Sort(Keep(entries, Sort(entries, key)[..i]), key) == Sort(entries, key)[i..]
  {
    var sorted := Sort(entries, key);
    if i == 0 {
      KeepNone(entries);
      assert sorted[..0] == [] && sorted[0..] == sorted;
    } else {
      RankOfKeep(entries, key, i - 1);
      KeepMembers(entries, sorted[..i]);
      RankStep(entries, key, i - 1);
    }
  }

  /** One turn of the loop, seen on the single sort. */
  lemma RankStep(entries: seq<Meta>, key: Meta -> real, i: nat)
    requires DistinctKeys(entries) && i < |Sort(entries, key)|
    requires DistinctKeys(Keep(entries, Sort(entries, key)[..i]))
    requires Sort(Keep(entries, Sort(entries, key)[..i]), key) == Sort(entries, key)[i..]
    ensures var left, v := Keep(entries, Sort(entries, key)[..i]), Sort(entries, key)[i];
      && v in left
      && DropKey(left, v.key) == Keep(entries, Sort(entries, key)[..i + 1])
      && Sort(DropKey(left, v.key), key) == Sort(entries, key)[i + 1..]
  {
    var sorted := Sort(entries, key);
    var left, v := Keep(entries, sorted[..i]), sorted[i];
    SplitAt(sorted, i);
    DropLeast(left, key);
    KeepMembers(entries, sorted[..i]);
    KeepSnoc(entries, sorted[..i], v);
  }

  lemma SurvivorsRanked(entries: seq<Meta>, incoming: nat, now: int)
    requires DistinctKeys(entries) && incoming <= BUDGET_BYTES
    ensures var ranked, left := Ranked(entries, now), Survivors(entries, incoming, now);
      && DistinctKeys(left)
      && Sort(left, ScoreAt(now)) == ranked[Shortest(ranked, incoming)..]
      && SumBytes(left) == SumBytes(ranked[Shortest(ranked, incoming)..])
  {
    FreshMembers(entries, now);
    var live, ranked := Fresh(entries, now), Ranked(entries, now);
    RankOfKeep(live, ScoreAt(now), Shortest(ranked, incoming));
    KeepMembers(live, Victims(entries, incoming, now));
    SumSort(Survivors(entries, incoming, now), ScoreAt(now));
  }

  /** Room is made whenever the item alone fits the budget, and only then. */
  lemma FitsIffWithinBudget(entries: seq<Meta>, incoming: nat, now: int)
    requires DistinctKeys(entries)
    ensures SumBytes(Survivors(entries, incoming, now)) + incoming <= BUDGET_BYTES <==> incoming <= BUDGET_BYTES
  {
    if incoming <= BUDGET_BYTES {
      SurvivorsRanked(entries, incoming, now);
      ShortestIsLeast(Ranked(entries, now), incoming);
    }
  }

  lemma SurvivorRank(entries: seq<Meta>, incoming: nat, now: int, m: Meta) returns (j: nat)
    requires DistinctKeys(entries) && incoming <= BUDGET_BYTES
    requires m in Survivors(entries, incoming, now)
    ensures var ranked := Ranked(entries, now);
      Shortest(ranked, incoming) <= j < |ranked| && ranked[j] == m
  {
    var ranked := Ranked(entries, now);
    var n := Shortest(ranked, incoming);
    SurvivorsRanked(entries, incoming, now);
    SortMembers(Survivors(entries, incoming, now), ScoreAt(now));
    var k :| 0 <= k < |ranked[n..]| && ranked[n..][k] == m;
    j := n + k;
  }

  /** No evicted entry scores above a surviving one. */
  lemma EvictedScoreLow(entries: seq<Meta>, incoming: nat, now: int, evicted: Meta, kept: Meta)
    requires DistinctKeys(entries) && incoming <= BUDGET_BYTES
    requires evicted in Victims(entries, incoming, now)
    requires kept in Survivors(entries, incoming, now)
    ensures ScoreOf(evicted, now) <= ScoreOf(kept, now)
  {
    var j := SurvivorRank(entries, incoming, now, kept);
    var ranked := Ranked(entries, now);
    var i :| 0 <= i < Shortest(ranked, incoming) && ranked[i] == evicted;
    SortAscending(Fresh(entries, now), ScoreAt(now));
    assert ScoreAt(now)(ranked[i]) <= ScoreAt(now)(ranked[j]);
  }

  /** Nothing is evicted needlessly: with the last victim back, the item would not fit. */
  lemma LastEvictionNeeded(entries: seq<Meta>, incoming: nat, now: int)
    requires DistinctKeys(entries) && incoming <= BUDGET_BYTES
    requires var v := Victims(entries, incoming, now); v != []
    ensures var v := Victims(entries, incoming, now);
      SumBytes(Survivors(entries, incoming, now)) + v[|v| - 1].bytes + incoming > BUDGET_BYTES
  {
    var ranked := Ranked(entries, now);
    var n := Shortest(ranked, incoming);
    SurvivorsRanked(entries, incoming, now);
    ShortestIsLeast(ranked, incoming);
    SplitAt(ranked, n - 1);
  }

  // ----- tiers and ages -----

  lemma CompareScaled(a: real, b: real, k: real)
    requires k > 0.0
    ensures a <= b <==> a * k <= b * k
  {
    if a <= b {
      assert (b - a) * k >= 0.0;
    } else {
      assert (a - b) * k > 0.0;
    }
  }

  lemma BaseScoreWithin(m: Meta, now: int, bound: real)
    ensures BaseScore(m, now) <= bound <==> (m.hits + 1) as real <= bound * (1.0 + AgeHours(m, now))
  {
    CompareScaled(BaseScore(m, now), bound, 1.0 + AgeHours(m, now));
  }

  lemma BaseScoreBounds(m: Meta, now: int)
    ensures 0.0 < BaseScore(m, now) <= (m.hits + 1) as real
  {
    var s, d := BaseScore(m, now), 1.0 + AgeHours(m, now);
    CompareScaled(s, 0.0, d);
    CompareScaled(1.0, d, s);
  }

  // ----- pinned entries -----

  /** The bonus outweighs this entry's base score: its hits plus one are at most 10^12 times one plus
      its age in hours. */
  predicate BelowBonus(u: Meta, now: int) {
    (u.hits + 1) as real <= PINNED_BONUS * (1.0 + AgeHours(u, now))
  }

  /** Pinned entries go last: an unexpired pinned entry is never evicted by score when an unpinned one
      below the bonus is kept. */
  lemma PinnedOutlastsUnpinned(entries: seq<Meta>, incoming: nat, now: int, evicted: Meta, kept: Meta)
    requires DistinctKeys(entries) && incoming <= BUDGET_BYTES
    requires evicted in Victims(entries, incoming, now)
    requires kept in Survivors(entries, incoming, now)
    requires kept.tier != Pinned ==> BelowBonus(kept, now)
    ensures evicted.tier == Pinned ==> kept.tier == Pinned
  {
    if evicted.tier == Pinned && kept.tier != Pinned {
      EvictedScoreLow(entries, incoming, now, evicted, kept);
      BonusProtectsIff(kept, now);
      assert false;
    }
  }

  lemma FreshFate(entries: seq<Meta>, incoming: nat, now: int, m: Meta)
    requires DistinctKeys(entries) && incoming <= BUDGET_BYTES && m in entries
    ensures m in Survivors(entries, incoming, now) <==> !IsStale(m, now) && m !in Victims(entries, incoming, now)
  {
    FreshMembers(entries, now);
    KeepMembers(Fresh(entries, now), Victims(entries, incoming, now));
  }

  /** Beside a kept unpinned entry, a pinned one stays exactly when it has not expired: expiry, which
      comes sooner to it than to media, is the one way it goes first. */
  lemma PinnedStaysIffFresh(entries: seq<Meta>, incoming: nat, now: int, p: Meta, u: Meta)
    requires DistinctKeys(entries) && incoming <= BUDGET_BYTES
    requires p in entries && p.tier == Pinned
    requires u in Survivors(entries, incoming, now) && u.tier != Pinned && BelowBonus(u, now)
    ensures p in Survivors(entries, incoming, now) <==> !IsStale(p, now)
  {
    FreshFate(entries, incoming, now, p);
    if p in Victims(entries, incoming, now) {
      PinnedOutlastsUnpinned(entries, incoming, now, p, u);
    }
  }

  /** Half of what is documented: a pinned entry is evicted only if nothing unpinned remains. */
  predicate PinnedGoLast(entries: seq<Meta>, incoming: nat, now: int) {
    var left := Survivors(entries, incoming, now);
    (exists p :: p in entries && p.tier == Pinned && p !in left) ==> forall u :: u in left ==> u.tier == Pinned
  }

  ghost predicate PinnedAlwaysGoLast(entries: seq<Meta>, now: int) {
    forall incoming: nat :: incoming <= BUDGET_BYTES ==> PinnedGoLast(entries, incoming, now)
  }

  lemma {:induction false} FreshSum(entries: seq<Meta>, now: int)
    ensures SumBytes(Fresh(entries, now)) <= SumBytes(entries)
  {
    if entries != [] {
      var rest := Fresh(entries[1..], now);
      FreshSum(entries[1..], now);
      assert ([entries[0]] + rest)[1..] == rest;
      assert [] + rest == rest;
    }
  }

  /** When everything fits, the expired entries go and no others. */
  lemma NothingButStaleGoes(entries: seq<Meta>, incoming: nat, now: int)
    requires SumBytes(entries) + incoming <= BUDGET_BYTES
    ensures Survivors(entries, incoming, now) == Fresh(entries, now)
  {
    FreshSum(entries, now);
    SumSort(Fresh(entries, now), ScoreAt(now));
    assert Victims(entries, incoming, now) == [];
    KeepNone(Fresh(entries, now));
  }

  predicate NoExpiredPin(entries: seq<Meta>, now: int) {
    forall p :: p in entries && p.tier == Pinned ==> !IsStale(p, now)
  }

  predicate NoFreshUnpinned(entries: seq<Meta>, now: int) {
    forall u :: u in entries && u.tier != Pinned ==> IsStale(u, now)
  }

  /** Whatever is to be stored, a cache within its budget keeps that half exactly when it holds no
      expired pinned entry, or no unexpired unpinned one. */
  lemma PinnedAlwaysGoLastIff(entries: seq<Meta>, now: int)
    requires DistinctKeys(entries) && SumBytes(entries) <= BUDGET_BYTES
    requires forall u :: u in entries && u.tier != Pinned ==> BelowBonus(u, now)
    ensures PinnedAlwaysGoLast(entries, now) <==> NoExpiredPin(entries, now) || NoFreshUnpinned(entries, now)
  {
    if NoExpiredPin(entries, now) || NoFreshUnpinned(entries, now) {
      forall incoming: nat | incoming <= BUDGET_BYTES
        ensures PinnedGoLast(entries, incoming, now)
      {
        NoExpiredPinBesideFresh(entries, incoming, now);
      }
    } else {
      ExpiredPinBesideFresh(entries, now);
    }
  }

  lemma ExpiredPinBesideFresh(entries: seq<Meta>, now: int)
    requires SumBytes(entries) <= BUDGET_BYTES
    requires !NoExpiredPin(entries, now) && !NoFreshUnpinned(entries, now)
    ensures !PinnedGoLast(entries, 0, now)
  {
    NothingButStaleGoes(entries, 0, now);
    FreshMembers(entries, now);
    var p :| p in entries && p.tier == Pinned && IsStale(p, now);
    var u :| u in entries && u.tier != Pinned && !IsStale(u, now);
    assert p !in Survivors(entries, 0, now) && u in Survivors(entries, 0, now);
  }

  lemma NoExpiredPinBesideFresh(entries: seq<Meta>, incoming: nat, now: int)
    requires DistinctKeys(entries) && incoming <= BUDGET_BYTES
    requires forall u :: u in entries && u.tier != Pinned ==> BelowBonus(u, now)
    requires NoExpiredPin(entries, now) || NoFreshUnpinned(entries, now)
    ensures PinnedGoLast(entries, incoming, now)
  {
    var left := Survivors(entries, incoming, now);
    forall p, u | p in entries && p.tier == Pinned && p !in left && u in left
      ensures u.tier == Pinned
    {
      FreshMembers(entries, now);
      KeepMembers(Fresh(entries, now), Victims(entries, incoming, now));
      if u.tier != Pinned {
        PinnedStaysIffFresh(entries, incoming, now, p, u);
        assert false;
      }
    }
  }

  /** At its turn the budget is still exceeded: `p` and all that rank above it do not fit. */
  predicate StillExceeded(entries: seq<Meta>, incoming: nat, now: int, p: Meta) {
    var ranked := Ranked(entries, now);
    exists k :: 0 <= k < |ranked| && ranked[k] == p && SumBytes(ranked[k..]) + incoming > BUDGET_BYTES
  }

  /** What is documented in full: a pinned entry is evicted only if nothing unpinned remains and the
      budget is still exceeded. */
  predicate PinnedPromise(entries: seq<Meta>, incoming: nat, now: int) {
    var left := Survivors(entries, incoming, now);
    forall p :: p in entries && p.tier == Pinned && p !in left ==>
      (forall u :: u in left ==> u.tier == Pinned) && StillExceeded(entries, incoming, now, p)
  }

  ghost predicate PinnedPromiseAlways(entries: seq<Meta>, now: int) {
    forall incoming: nat :: incoming <= BUDGET_BYTES ==> PinnedPromise(entries, incoming, now)
  }

  /** Some pinned entry ranks below an unpinned one, with bytes to be had before that one's turn. */
  predicate PinRanksBelow(ranked: seq<Meta>) {
    exists i, j :: 0 <= i < j < |ranked| && RanksBelow(ranked, i, j)
  }

  predicate RanksBelow(ranked: seq<Meta>, i: nat, j: nat)
    requires i < j < |ranked|
  {
    ranked[i].tier == Pinned && ranked[j].tier != Pinned && SumBytes(ranked[i..j]) > 0
  }

  lemma {:induction false} SumSplit(entries: seq<Meta>, i: nat, j: nat)
    requires i <= j <= |entries|
    ensures SumBytes(entries[i..]) == SumBytes(entries[i..j]) + SumBytes(entries[j..])
    decreases j - i
  {
    if i < j {
      SumSplit(entries, i + 1, j);
      assert entries[i..][1..] == entries[i + 1..] && entries[i..j][1..] == entries[i + 1..j];
    }
  }

  /** Each entry evicted by score goes while the budget is exceeded. */
  lemma VictimStillExceeds(entries: seq<Meta>, incoming: nat, now: int, p: Meta) returns (k: nat)
    requires incoming <= BUDGET_BYTES && p in Victims(entries, incoming, now)
    ensures var ranked := Ranked(entries, now);
      && k < Shortest(ranked, incoming) && ranked[k] == p
      && SumBytes(ranked[k..]) + incoming > BUDGET_BYTES
      && StillExceeded(entries, incoming, now, p)
  {
    var ranked := Ranked(entries, now);
    ShortestIsLeast(ranked, incoming);
    var i :| 0 <= i < Shortest(ranked, incoming) && ranked[i] == p;
    k := i;
  }

  lemma PromiseKept(entries: seq<Meta>, incoming: nat, now: int, p: Meta)
    requires DistinctKeys(entries) && incoming <= BUDGET_BYTES
    requires NoExpiredPin(entries, now) && !PinRanksBelow(Ranked(entries, now))
    requires p in entries && p.tier == Pinned && p !in Survivors(entries, incoming, now)
    ensures forall u :: u in Survivors(entries, incoming, now) ==> u.tier == Pinned
    ensures StillExceeded(entries, incoming, now, p)
  {
    var ranked := Ranked(entries, now);
    FreshFate(entries, incoming, now, p);
    var i := VictimStillExceeds(entries, incoming, now, p);
    forall u | u in Survivors(entries, incoming, now)
      ensures u.tier == Pinned
    {
      var j := SurvivorRank(entries, incoming, now, u);
      var n := Shortest(ranked, incoming);
      ShortestIsLeast(ranked, incoming);
      SumSplit(ranked, i, j);
      SumSplit(ranked, n, j);
      assert !RanksBelow(ranked, i, j);
    }
  }

  /** An item that leaves room for exactly the entries from `j` on evicts the pinned one at `i`. */
  lemma RanksBelowBreaksPromise(entries: seq<Meta>, now: int, i: nat, j: nat)
    requires DistinctKeys(entries) && SumBytes(entries) <= BUDGET_BYTES
    requires i < j < |Ranked(entries, now)| && RanksBelow(Ranked(entries, now), i, j)
    ensures !PinnedPromiseAlways(entries, now)
  {
    var ranked := Ranked(entries, now);
    var live := Fresh(entries, now);
    FreshSum(entries, now);
    SumSort(live, ScoreAt(now));
    SumSplit(ranked, 0, j);
    assert ranked[0..] == ranked;
    var incoming: nat := BUDGET_BYTES - SumBytes(ranked[j..]);
    var n := Shortest(ranked, incoming);
    SumSplit(ranked, i, j);
    BetweenCuts(ranked, incoming, i, j);
    SurvivorsRanked(entries, incoming, now);
    SortMembers(live, ScoreAt(now));
    SortMembers(Survivors(entries, incoming, now), ScoreAt(now));
    FreshMembers(entries, now);
    FreshFate(entries, incoming, now, ranked[i]);
    assert ranked[n..][j - n] == ranked[j];
    assert !PinnedPromise(entries, incoming, now);
  }

  lemma BetweenCuts(ranked: seq<Meta>, incoming: nat, i: nat, j: nat)
    requires i < j < |ranked| && incoming <= BUDGET_BYTES
    requires SumBytes(ranked[j..]) + incoming <= BUDGET_BYTES < SumBytes(ranked[i..]) + incoming
    ensures i < Shortest(ranked, incoming) <= j
  {
    var n := Shortest(ranked, incoming);
    ShortestIsLeast(ranked, incoming);
    if n <= i {
      SumSplit(ranked, n, i);
    }
  }

  lemma ExpiredPinBreaksPromise(entries: seq<Meta>, now: int)
    requires DistinctKeys(entries) && SumBytes(entries) <= BUDGET_BYTES
    requires !NoExpiredPin(entries, now)
    ensures !PinnedPromise(entries, 0, now)
  {
    var p :| p in entries && p.tier == Pinned && IsStale(p, now);
    FreshFate(entries, 0, now, p);
    FreshMembers(entries, now);
    SortMembers(Fresh(entries, now), ScoreAt(now));
    assert !StillExceeded(entries, 0, now, p);
  }

  /** Whatever is to be stored, a cache within its budget keeps the documented promise exactly when it
      holds no expired pinned entry and no pinned entry ranks below an unpinned one. */
  lemma PinnedPromiseIff(entries: seq<Meta>, now: int)
    requires DistinctKeys(entries) && SumBytes(entries) <= BUDGET_BYTES
    ensures PinnedPromiseAlways(entries, now) <==> NoExpiredPin(entries, now) && !PinRanksBelow(Ranked(entries, now))
  {
    if !NoExpiredPin(entries, now) {
      ExpiredPinBreaksPromise(entries, now);
    } else if i, j :| 0 <= i < j < |Ranked(entries, now)| && RanksBelow(Ranked(entries, now), i, j) {
      RanksBelowBreaksPromise(entries, now, i, j);
    } else {
      forall incoming: nat | incoming <= BUDGET_BYTES
        ensures PinnedPromise(entries, incoming, now)
      {
        forall p | p in entries && p.tier == Pinned && p !in Survivors(entries, incoming, now)
          ensures (forall u :: u in Survivors(entries, incoming, now) ==> u.tier == Pinned)
          ensures StillExceeded(entries, incoming, now, p)
        {
          PromiseKept(entries, incoming, now, p);
        }
      }
    }
  }

  lemma BonusRanksPinsAbove(entries: seq<Meta>, now: int)
    requires forall u :: u in entries && u.tier != Pinned ==> BelowBonus(u, now)
    ensures !PinRanksBelow(Ranked(entries, now))
  {
    var ranked := Ranked(entries, now);
    FreshMembers(entries, now);
    SortMembers(Fresh(entries, now), ScoreAt(now));
    SortAscending(Fresh(entries, now), ScoreAt(now));
    forall i, j | 0 <= i < j < |ranked|
      ensures !RanksBelow(ranked, i, j)
    {
      if ranked[j].tier != Pinned {
        assert ranked[j] in ranked;
        BonusProtectsIff(ranked[j], now);
        assert ScoreAt(now)(ranked[i]) <= ScoreAt(now)(ranked[j]);
      }
    }
  }

  /** With every unpinned entry below the bonus, that is: exactly when no pinned entry has expired. */
  lemma PinnedPromiseIffNoneExpired(entries: seq<Meta>, now: int)
    requires DistinctKeys(entries) && SumBytes(entries) <= BUDGET_BYTES
    requires forall u :: u in entries && u.tier != Pinned ==> BelowBonus(u, now)
    ensures PinnedPromiseAlways(entries, now) <==> NoExpiredPin(entries, now)
  {
    PinnedPromiseIff(entries, now);
    BonusRanksPinsAbove(entries, now);
  }

  /** The bonus protects against exactly those unpinned entries whose base score does not exceed it. */
  lemma BonusProtectsIff(u: Meta, now: int)
    requires u.tier != Pinned
    ensures (forall p: Meta :: p.tier == Pinned ==> ScoreOf(p, now) > ScoreOf(u, now))
       <==> BelowBonus(u, now)
  {
    BaseScoreWithin(u, now, PINNED_BONUS);
    if BaseScore(u, now) <= PINNED_BONUS {
      forall p: Meta | p.tier == Pinned
        ensures ScoreOf(p, now) > ScoreOf(u, now)
      {
        BaseScoreBounds(p, now);
      }
    } else {
      var p := AgedPin(u, now, BaseScore(u, now) - PINNED_BONUS);
      assert ScoreOf(p, now) <= ScoreOf(u, now);
    }
  }

  /** A pinned entry left alone for long enough has as small a base score as one likes. */
  lemma AgedPin(u: Meta, now: int, gap: real) returns (p: Meta)
    requires gap > 0.0
    ensures p.tier == Pinned && BaseScore(p, now) <= gap
  {
    var hours := (1.0 / gap).Floor + 1;
    p := u.(tier := Pinned, hits := 0, lastAccess := now - hours * 3600000);
    assert (1.0 / gap) * gap == 1.0;
    CompareScaled(0.0, 1.0 / gap, gap);
    assert AgeHours(p, now) == hours as real;
    var d := 1.0 + hours as real;
    CompareScaled(1.0 / gap, d, gap);
    assert d * gap >= 1.0;
    assert BaseScore(p, now) * d == 1.0;
    assert gap * d == d * gap;
    CompareScaled(BaseScore(p, now), gap, d);
  }

  /** The score in whole milliseconds: without the bonus of a pinned entry it is hits plus one, divided by
      one plus the hours since the last access, which are never negative. */
  lemma ScoreInMilliseconds(m: Meta, now: int)
    ensures var age := if now > m.lastAccess then now - m.lastAccess else 0;
      (ScoreOf(m, now) - if m.tier == Pinned then 1000000000000.0 else 0.0) * (3600000 + age) as real
      == (m.hits + 1) as real * 3600000.0
  {
    var age := if now > m.lastAccess then now - m.lastAccess else 0;
    var d := 1.0 + AgeHours(m, now);
    assert d * 3600000.0 == (3600000 + age) as real;
    assert BaseScore(m, now) * d == (m.hits + 1) as real;
  }

  /** Within one tier, more hits and no older access means a higher score. */
  lemma MoreUsedScoresHigher(a: Meta, b: Meta, now: int)
    requires a.tier == b.tier
    requires a.hits > b.hits && a.lastAccess >= b.lastAccess
    ensures ScoreOf(a, now) > ScoreOf(b, now)
  {
    var da, db, sb := 1.0 + AgeHours(a, now), 1.0 + AgeHours(b, now), BaseScore(b, now);
    BaseScoreBounds(b, now);
    CompareScaled(da, db, sb);
    assert sb * da <= (b.hits + 1) as real < (a.hits + 1) as real;
    BaseScoreWithin(a, now, sb);
  }

  /** An entry with more hits and no older access never goes first: if it is evicted by score, every
      less used entry of its tier is gone as well. */
  lemma MoreUsedGoesLater(entries: seq<Meta>, incoming: nat, now: int, a: Meta, b: Meta)
    requires DistinctKeys(entries) && incoming <= BUDGET_BYTES
    requires a in Victims(entries, incoming, now) && b in entries
    requires a.tier == b.tier && a.hits > b.hits && a.lastAccess >= b.lastAccess
    ensures b !in Survivors(entries, incoming, now)
    ensures !IsStale(b, now) ==> b in Victims(entries, incoming, now)
  {
    FreshFate(entries, incoming, now, b);
    if b in Survivors(entries, incoming, now) {
      EvictedScoreLow(entries, incoming, now, a, b);
      MoreUsedScoresHigher(a, b, now);
      assert false;
    }
  }
}
