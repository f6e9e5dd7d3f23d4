/**
 The bid scanner: a loop that follows the chain head in bounded block ranges, keeps its
 cursor when a read fails, and retries each bid a bounded number of times. The loop is
 proved equal to a run of `Step`, and every run is proved to scan each block once.
 */
module BidScanner {
  import opened Wrappers

  const U64_MAX: nat := 0xFFFF_FFFF_FFFF_FFFF

  datatype Config = Config(backfillBlocks: nat, maxBlockRange: nat, maxAttempts: nat)

  /** The service passes both limits through `.max(1)`. */
  predicate ValidConfig(c: Config) {
    c.maxBlockRange >= 1 && c.maxAttempts >= 1
  }

  /** A bid read from the log: whether its client address parses, and which attempts succeed. */
  datatype BidEvent = BidEvent(clientParses: bool, succeeds: nat -> bool)

  /** What the chain answers in one turn of the loop. */
  datatype Round =
    | HeadFailed
    | ScanFailed(latest: nat)
    | ScanOk(latest: nat, events: seq<BidEvent>)

  /** A successful log scan: its range and the head it was read under. */
  datatype Scan = Scan(from: nat, to: nat, head: nat)

  datatype State = State(start: nat, nextBlock: Option<nat>, scans: seq<Scan>, attempts: seq<nat>)

  const INITIAL: State := State(0, None, [], [])

  // ----- retries -----

  /** The attempts spent on a bid from attempt `k` on: up to the first success, or to the limit. */
  function AttemptsFrom(succeeds: nat -> bool, k: nat, maxAttempts: nat): nat
    decreases maxAttempts - k
  {
    if succeeds(k) || k >= maxAttempts then k else AttemptsFrom(succeeds, k + 1, maxAttempts)
  }

  method FulfillBidWithRetries(succeeds: nat -> bool, maxAttempts: nat) returns (ok: bool, attempts: nat)
    ensures attempts == AttemptsFrom(succeeds, 1, maxAttempts)
    ensures 1 <= attempts && (maxAttempts >= 1 ==> attempts <= maxAttempts)
    ensures ok == succeeds(attempts)
    ensures !ok ==> attempts >= maxAttempts
    ensures forall k :: 1 <= k < attempts ==> !succeeds(k)
  {
    var attempt := 1;
    while true
      invariant 1 <= attempt && (maxAttempts >= 1 ==> attempt <= maxAttempts)
      invariant forall k :: 1 <= k < attempt ==> !succeeds(k)
      invariant AttemptsFrom(succeeds, attempt, maxAttempts) == AttemptsFrom(succeeds, 1, maxAttempts)
      decreases maxAttempts - attempt
    {
      if succeeds(attempt) {
        return true, attempt;
      }
      if attempt < maxAttempts {
        attempt := attempt + 1;
      } else {
        return false, attempt;
      }
    }
  }

  /** A bid with an unreadable client is skipped without an attempt. */
  function AttemptsOn(event: BidEvent, maxAttempts: nat): nat {
    if event.clientParses then AttemptsFrom(event.succeeds, 1, maxAttempts) else 0
  }

  function AttemptsOnAll(events: seq<BidEvent>, maxAttempts: nat): (a: seq<nat>)
    ensures |a| == |events|
    ensures forall i :: 0 <= i < |events| ==> a[i] == AttemptsOn(events[i], maxAttempts)
  {
    seq(|events|, i requires 0 <= i < |events| => AttemptsOn(events[i], maxAttempts))
  }

  // ----- one turn of the loop -----

  function SaturatingSub(a: nat, b: nat): nat { if a < b then 0 else a - b }

  function SaturatingAdd(a: nat, b: nat): nat { if a + b > U64_MAX then U64_MAX else a + b }

  function CheckedSucc(a: nat): Option<nat> { if a >= U64_MAX then None else Some(a + 1) }

  function Min(a: nat, b: nat): nat { if a <= b then a else b }

  /** The last block of a scan that begins at `from` under this head. */
  function ToBlock(from: nat, latest: nat, maxBlockRange: nat): nat
    requires maxBlockRange >= 1
  {
    Min(latest, SaturatingAdd(from, maxBlockRange - 1))
  }

  /** The first head read fixes where scanning starts. */
  function Baselined(c: Config, s: State, latest: nat): State {
    if s.nextBlock == None then
      var start := SaturatingSub(latest, c.backfillBlocks);
      s.(start := start, nextBlock := Some(start))
    else s
  }

  function Step(c: Config, s: State, round: Round): State
    requires ValidConfig(c)
  {
    if round.HeadFailed? then s
    else
      var based := Baselined(c, s, round.latest);
      var from := based.nextBlock.value;
      if round.latest < from || round.ScanFailed? then based
      else
        var to := ToBlock(from, round.latest, c.maxBlockRange);
        State(based.start, CheckedSucc(to), based.scans + [Scan(from, to, round.latest)],
              based.attempts + AttemptsOnAll(round.events, c.maxAttempts))
  }

  function Run(c: Config, rounds: seq<Round>): State
    requires ValidConfig(c)
  {
    if rounds == [] then INITIAL else Step(c, Run(c, rounds[..|rounds| - 1]), rounds[|rounds| - 1])
  }

  /** The scanner's loop, cut off after the given rounds. */
  method RunBidScanner(c: Config, rounds: seq<Round>) returns (s: State)
    requires ValidConfig(c)
    ensures s == Run(c, rounds)
  {
    var nextBlock: Option<nat> := None;
    var start := 0;
    var scans: seq<Scan> := [];
    var attempts: seq<nat> := [];
    for i := 0 to |rounds|
      invariant State(start, nextBlock, scans, attempts) == Run(c, rounds[..i])
    {
      assert rounds[..i + 1][..i] == rounds[..i];
      var round := rounds[i];
      if round.HeadFailed? {
        continue;
      }
      var latest := round.latest;
      if nextBlock == None {
        start := SaturatingSub(latest, c.backfillBlocks);
        nextBlock := Some(start);
      }
      var fromBlock := nextBlock.value;
      if latest >= fromBlock {
        var toBlock := Min(latest, SaturatingAdd(fromBlock, c.maxBlockRange - 1));
        if round.ScanFailed? {
          continue;
        }
        nextBlock := CheckedSucc(toBlock);
        scans := scans + [Scan(fromBlock, toBlock, latest)];
        ghost var before := attempts;
        for k := 0 to |round.events|
          invariant attempts == before + AttemptsOnAll(round.events, c.maxAttempts)[..k]
        {
          if !round.events[k].clientParses {
            attempts := attempts + [0];
            continue;
          }
          var ok, spent := FulfillBidWithRetries(round.events[k].succeeds, c.maxAttempts);
          attempts := attempts + [spent];
        }
      }
    }
    assert rounds[..|rounds|] == rounds;
    s := State(start, nextBlock, scans, attempts);
  }

  // ----- coverage over whole runs -----

  /** Successive scans that start at `start`, leave no gap, repeat nothing, and end before `cursor`. */
  predicate Tiles(scans: seq<Scan>, start: nat, cursor: nat) {
    && (scans == [] ==> start == cursor)
    && (scans != [] ==> scans[0].from == start && scans[|scans| - 1].to + 1 == cursor)
    && (forall i :: 0 <= i < |scans| ==> scans[i].from <= scans[i].to)
    && (forall i :: 0 < i < |scans| ==> scans[i].from == scans[i - 1].to + 1)
  }

  predicate Bounded(c: Config, scans: seq<Scan>) {
    forall i :: 0 <= i < |scans| ==>
      scans[i].to - scans[i].from < c.maxBlockRange && scans[i].to <= scans[i].head
  }

  predicate AttemptsWithin(attempts: seq<nat>, maxAttempts: nat) {
    forall i :: 0 <= i < |attempts| ==> attempts[i] <= maxAttempts
  }

  predicate GoodState(c: Config, s: State) {
    && (s.nextBlock == None ==> s.scans == [])
    && (s.nextBlock.Some? ==> Tiles(s.scans, s.start, s.nextBlock.value) && s.nextBlock.value <= U64_MAX)
    && Bounded(c, s.scans)
    && AttemptsWithin(s.attempts, c.maxAttempts)
  }

  /** Heads are 64-bit block numbers; they may go backwards. */
  predicate HeadsInRange(rounds: seq<Round>) {
    forall i :: 0 <= i < |rounds| ==> rounds[i].HeadFailed? || rounds[i].latest <= U64_MAX
  }

  predicate HeadsBelowMax(rounds: seq<Round>) {
    forall i :: 0 <= i < |rounds| ==> rounds[i].HeadFailed? || rounds[i].latest < U64_MAX
  }

  /** This turn scans up to the largest block number. */
  predicate ScansToMax(c: Config, s: State, round: Round)
    requires ValidConfig(c)
  {
    round.ScanOk? &&
      var from := Baselined(c, s, round.latest).nextBlock.value;
      from <= round.latest && ToBlock(from, round.latest, c.maxBlockRange) == U64_MAX
  }

  /** One turn keeps the invariant, unless, and only unless, it scans up to the largest block number:
      then the cursor is lost. */
  lemma StepKeepsGood(c: Config, s: State, round: Round)
    requires ValidConfig(c) && GoodState(c, s)
    requires round.HeadFailed? || round.latest <= U64_MAX
    ensures GoodState(c, Step(c, s, round)) <==> !ScansToMax(c, s, round)
    ensures s.nextBlock.Some? ==> Step(c, s, round).start == s.start
    ensures s.nextBlock.Some? ==> (Step(c, s, round).nextBlock == None <==> ScansToMax(c, s, round))
  {
    if round.ScanOk? {
      var from := Baselined(c, s, round.latest).nextBlock.value;
      EventsBounded(s.attempts, round.events, c.maxAttempts);
      if from <= round.latest {
        ScanTiles(c, Baselined(c, s, round.latest), Scan(from, ToBlock(from, round.latest, c.maxBlockRange), round.latest));
      }
    }
  }

  lemma EventsBounded(before: seq<nat>, events: seq<BidEvent>, maxAttempts: nat)
    requires maxAttempts >= 1 && AttemptsWithin(before, maxAttempts)
    ensures AttemptsWithin(before + AttemptsOnAll(events, maxAttempts), maxAttempts)
  {
    forall i | 0 <= i < |events|
      ensures AttemptsOnAll(events, maxAttempts)[i] <= maxAttempts
    {
      AttemptsUntilSuccess(events[i].succeeds, 1, maxAttempts);
    }
  }

  /** One more scan, from the cursor on, extends the tiling. */
  lemma ScanTiles(c: Config, s: State, scan: Scan)
    requires s.nextBlock.Some? && Tiles(s.scans, s.start, s.nextBlock.value) && Bounded(c, s.scans)
    requires scan.from == s.nextBlock.value <= scan.to <= scan.head
    requires scan.to - scan.from < c.maxBlockRange
    ensures Tiles(s.scans + [scan], s.start, scan.to + 1) && Bounded(c, s.scans + [scan])
  {
  }

  predicate NoneAtMax(scans: seq<Scan>) {
    forall i :: 0 <= i < |scans| ==> scans[i].to != U64_MAX
  }

  lemma {:induction false} TilesBelow(scans: seq<Scan>, start: nat, cursor: nat, i: nat)
    requires Tiles(scans, start, cursor) && i < |scans|
    ensures scans[i].to < cursor
    decreases |scans| - i
  {
    if i + 1 < |scans| {
      TilesBelow(scans, start, cursor, i + 1);
    }
  }

  lemma GoodHasNoneAtMax(c: Config, s: State)
    requires GoodState(c, s)
    ensures NoneAtMax(s.scans)
  {
    forall i | 0 <= i < |s.scans|
      ensures s.scans[i].to != U64_MAX
    {
      TilesBelow(s.scans, s.start, s.nextBlock.value, i);
    }
  }

  lemma StepAppends(c: Config, s: State, round: Round)
    requires ValidConfig(c)
    ensures s.scans <= Step(c, s, round).scans
    ensures ScansToMax(c, s, round) ==> !NoneAtMax(Step(c, s, round).scans)
  {
    if ScansToMax(c, s, round) {
      assert Step(c, s, round).scans[|s.scans|].to == U64_MAX;
    }
  }

  /** In every run, failing reads included, the successful scans tile the blocks from the start to
      the cursor, each holds at most the configured number of blocks and ends at or below the head
      it was read under, and no bid gets more than the configured number of attempts: exactly when
      no scan has ended at the largest block number, so whenever every head is below it. */
  lemma {:induction false} EveryRunTiles(c: Config, rounds: seq<Round>)
    requires ValidConfig(c) && HeadsInRange(rounds)
    ensures GoodState(c, Run(c, rounds)) <==> NoneAtMax(Run(c, rounds).scans)
    ensures HeadsBelowMax(rounds) ==> GoodState(c, Run(c, rounds))
  {
    if rounds != [] {
      var n := |rounds| - 1;
      var before := Run(c, rounds[..n]);
      EveryRunTiles(c, rounds[..n]);
      StepAppends(c, before, rounds[n]);
      if NoneAtMax(before.scans) {
        StepKeepsGood(c, before, rounds[n]);
      }
      if GoodState(c, Run(c, rounds)) {
        GoodHasNoneAtMax(c, Run(c, rounds));
      }
    }
  }

  predicate Covers(scan: Scan, block: nat) { scan.from <= block <= scan.to }

  lemma {:induction false} TilesOrdered(scans: seq<Scan>, start: nat, cursor: nat, i: nat, j: nat)
    requires Tiles(scans, start, cursor) && i < j < |scans|
    ensures scans[i].to < scans[j].from
    decreases j - i
  {
    if i + 1 < j {
      TilesOrdered(scans, start, cursor, i, j - 1);
    }
  }

  lemma {:induction false} TilesCover(scans: seq<Scan>, start: nat, cursor: nat, block: nat) returns (i: nat)
    requires Tiles(scans, start, cursor) && start <= block < cursor
    ensures i < |scans| && Covers(scans[i], block)
  {
    i := |scans| - 1;
    if block < scans[i].from {
      i := TilesCover(scans[..i], start, scans[i].from, block);
    }
  }

  /** The first head that was read. */
  function FirstHead(rounds: seq<Round>): Option<nat> {
    if rounds == [] then None
    else if rounds[0].HeadFailed? then FirstHead(rounds[1..])
    else Some(rounds[0].latest)
  }

  lemma {:induction false} FirstHeadAppend(rounds: seq<Round>, last: Round)
    ensures FirstHead(rounds + [last])
         == if FirstHead(rounds).Some? then FirstHead(rounds) else FirstHead([last])
  {
    if rounds == [] {
      assert rounds + [last] == [last];
    } else {
      FirstHeadAppend(rounds[1..], last);
      assert (rounds + [last])[1..] == rounds[1..] + [last];
    }
  }

  lemma FirstHeadOfOne(round: Round)
    ensures FirstHead([round]) == if round.HeadFailed? then None else Some(round.latest)
  {
    assert FirstHead([round][1..]) == None;
  }

  /** Scanning starts the configured number of blocks behind the first head read, or at block 0, and not
      before a head is read. */
  lemma {:induction false} StartsBehindFirstHead(c: Config, rounds: seq<Round>)
    requires ValidConfig(c) && HeadsInRange(rounds) && NoneAtMax(Run(c, rounds).scans)
    ensures FirstHead(rounds) == None ==> Run(c, rounds) == INITIAL
    ensures FirstHead(rounds).Some? ==>
      var s, head := Run(c, rounds), FirstHead(rounds).value;
      s.nextBlock.Some? && (s.start + c.backfillBlocks == head || (s.start == 0 && head <= c.backfillBlocks))
  {
    if rounds != [] {
      var n := |rounds| - 1;
      var before := Run(c, rounds[..n]);
      assert rounds == rounds[..n] + [rounds[n]];
      StepAppends(c, before, rounds[n]);
      StartsBehindFirstHead(c, rounds[..n]);
      FirstHeadAppend(rounds[..n], rounds[n]);
      FirstHeadOfOne(rounds[n]);
      EveryRunTiles(c, rounds[..n]);
      StepKeepsGood(c, before, rounds[n]);
    }
  }

  /** Every block from the backfill behind the first head up to the cursor was scanned by exactly one
      successful scan. */
  lemma EachBlockScannedOnce(c: Config, rounds: seq<Round>, block: nat)
    requires ValidConfig(c) && HeadsInRange(rounds) && NoneAtMax(Run(c, rounds).scans)
    requires FirstHead(rounds).Some? && FirstHead(rounds).value - c.backfillBlocks <= block
    requires Run(c, rounds).nextBlock.Some? ==> block < Run(c, rounds).nextBlock.value
    ensures var scans := Run(c, rounds).scans;
      exists i :: 0 <= i < |scans| && Covers(scans[i], block)
        && forall j :: 0 <= j < |scans| && Covers(scans[j], block) ==> j == i
  {
    EveryRunTiles(c, rounds);
    StartsBehindFirstHead(c, rounds);
    var s := Run(c, rounds);
    var i := TilesCover(s.scans, s.start, s.nextBlock.value, block);
    forall j | 0 <= j < |s.scans| && Covers(s.scans[j], block)
      ensures j == i
    {
      if j < i {
        TilesOrdered(s.scans, s.start, s.nextBlock.value, j, i);
      } else if i < j {
        TilesOrdered(s.scans, s.start, s.nextBlock.value, i, j);
      }
    }
  }

  /** What a bid gets: no attempt if its client is unreadable; otherwise attempts up to its first success,
      or up to the limit without one. */
  predicate Attempted(event: BidEvent, attempts: nat, maxAttempts: nat) {
    if !event.clientParses then attempts == 0
    else
      && 1 <= attempts <= maxAttempts
      && (forall k :: 1 <= k < attempts ==> !event.succeeds(k))
      && (event.succeeds(attempts) || attempts == maxAttempts)
  }

  lemma {:induction false} AttemptsUntilSuccess(succeeds: nat -> bool, k: nat, maxAttempts: nat)
    requires k <= maxAttempts
    ensures var a := AttemptsFrom(succeeds, k, maxAttempts);
      && k <= a <= maxAttempts
      && (forall j :: k <= j < a ==> !succeeds(j))
      && (succeeds(a) || a == maxAttempts)
    decreases maxAttempts - k
  {
    if k < maxAttempts && !succeeds(k) {
      AttemptsUntilSuccess(succeeds, k + 1, maxAttempts);
    }
  }

  /** A turn that scans deals with every bid of the scanned range, once and in order; any other turn with none. */
  lemma ScannedBidsAttempted(c: Config, s: State, round: Round)
    requires ValidConfig(c)
    ensures var t := Step(c, s, round);
      if |t.scans| == |s.scans| then t.attempts == s.attempts
      else
        && round.ScanOk? && |t.scans| == |s.scans| + 1
        && |t.attempts| == |s.attempts| + |round.events| && s.attempts <= t.attempts
        && forall i :: 0 <= i < |round.events| ==>
             Attempted(round.events[i], t.attempts[|s.attempts| + i], c.maxAttempts)
  {
    if round.ScanOk? {
      forall i | 0 <= i < |round.events|
        ensures Attempted(round.events[i], AttemptsOnAll(round.events, c.maxAttempts)[i], c.maxAttempts)
      {
        AttemptsUntilSuccess(round.events[i].succeeds, 1, c.maxAttempts);
      }
    }
  }

  // ----- progress under a fixed head -----

  /** Every turn fails to read the head, or reads this one. */
  predicate FixedHead(rounds: seq<Round>, head: nat) {
    forall i :: 0 <= i < |rounds| ==> rounds[i].HeadFailed? || rounds[i].latest == head
  }

  function Successes(rounds: seq<Round>): nat {
    if rounds == [] then 0
    else Successes(rounds[..|rounds| - 1]) + (if rounds[|rounds| - 1].ScanOk? then 1 else 0)
  }

  function Advance(c: Config, s: State, rounds: seq<Round>): State
    requires ValidConfig(c)
  {
    if rounds == [] then s else Step(c, Advance(c, s, rounds[..|rounds| - 1]), rounds[|rounds| - 1])
  }

  lemma {:induction false} AdvanceMoves(c: Config, s: State, head: nat, rounds: seq<Round>)
    requires ValidConfig(c) && FixedHead(rounds, head)
    requires s.nextBlock.Some? && s.nextBlock.value <= head + 1 && head < U64_MAX
    ensures Advance(c, s, rounds).nextBlock
         == Some(Min(head + 1, s.nextBlock.value + Successes(rounds) * c.maxBlockRange))
  {
    if rounds != [] {
      var n := |rounds| - 1;
      var before := Advance(c, s, rounds[..n]);
      AdvanceMoves(c, s, head, rounds[..n]);
      AdvanceOne(c, s, before, head, rounds[n], Successes(rounds[..n]));
    }
  }

  lemma AdvanceOne(c: Config, s: State, before: State, head: nat, round: Round, k: nat)
    requires ValidConfig(c) && head < U64_MAX
    requires s.nextBlock.Some? && s.nextBlock.value <= head + 1
    requires round.HeadFailed? || round.latest == head
    requires before.nextBlock == Some(Min(head + 1, s.nextBlock.value + k * c.maxBlockRange))
    ensures Step(c, before, round).nextBlock
         == Some(Min(head + 1, s.nextBlock.value + (k + if round.ScanOk? then 1 else 0) * c.maxBlockRange))
  {
  }

  function CeilDiv(a: nat, b: nat): nat
    requires b >= 1
  {
    (a + b - 1) / b
  }

  lemma CeilDivLeast(a: nat, b: nat, k: nat)
    requires b >= 1
    ensures k * b >= a <==> k >= CeilDiv(a, b)
  {
    var q := CeilDiv(a, b);
    assert q * b >= a && (q == 0 || (q - 1) * b < a);
    if k >= q {
      assert k * b >= q * b;
    } else {
      assert k * b <= (q - 1) * b;
    }
  }

  /** With a fixed head, a stretch of turns passes it exactly when at least ceil(remaining / range)
      of them succeed, however many others fail. */
  lemma PassesFixedHead(c: Config, s: State, head: nat, rounds: seq<Round>)
    requires ValidConfig(c) && FixedHead(rounds, head)
    requires s.nextBlock.Some? && s.nextBlock.value <= head + 1 && head < U64_MAX
    ensures Advance(c, s, rounds).nextBlock == Some(head + 1)
       <==> Successes(rounds) >= CeilDiv(head + 1 - s.nextBlock.value, c.maxBlockRange)
  {
    AdvanceMoves(c, s, head, rounds);
    CeilDivLeast(head + 1 - s.nextBlock.value, c.maxBlockRange, Successes(rounds));
  }

  // ----- the largest block number -----

  function QuietScan(head: nat): Round { ScanOk(head, []) }

  /** After a scan up to the largest block number the next turn starts over: blocks are scanned twice. */
  lemma RescansAfterMax()
    ensures var c := Config(0, 1, 1);
      Run(c, [QuietScan(U64_MAX), QuietScan(U64_MAX)]).scans
      == [Scan(U64_MAX, U64_MAX, U64_MAX), Scan(U64_MAX, U64_MAX, U64_MAX)]
  {
    var c := Config(0, 1, 1);
    var rounds := [QuietScan(U64_MAX), QuietScan(U64_MAX)];
    assert rounds[..1] == [QuietScan(U64_MAX)];
    assert rounds[..1][..0] == [];
    assert Run(c, rounds[..1]).nextBlock == None;
  }
}
