# THASSA: verified models of the oracle node's codecs and the clients' core logic

This project models, in Dafny, the parts of THASSA whose correctness is hardest to see by reading:

- **The oracle node's codecs** (`rust_node/src/format.rs`, `shape.rs`, `noir.rs`, parts of `workflow.rs`).
  A shape string such as `tuple(price:uint64,note:string)` is parsed, validated and printed (`Shape.dfy`,
  `ShapeSpacing.dfy`);
  which shapes of the data shaping guide parse is settled in `GuideShapes.dfy`;
  a JSON object of a shape becomes an ABI plan (`AbiPlan.dfy`); the plan is laid out as callback bytes
  in the head/tail form of the Solidity Contract ABI Specification, section "Formal Specification of the
  Encoding" (`AbiFormat.dfy`); the proof's public inputs are flattened into 43 words (`NoirInputs.dfy`) and
  everything is copied into fixed-size witness arrays (`NoirWitness.dfy`). The node has no decoders; the
  model supplies them, and each encoder is proved to be undone by its decoder. For the public inputs there
  is a reader in the tree, `contracts/src/ThassaNoirVerifier.sol` (`NoirVerifier.dfy`), and what it accepts
  is proved to be what the node writes.
- **The bid scanner** (`rust_node/src/workflow.rs`, in `BidScanner.dfy`): which blocks a run scans when
  reads fail and the head moves back and forth.
- **The rotating cache** of the mobile app (`mobile/lib/cache.ts`, in `CacheEviction.dfy`,
  `CacheModel.dfy`, `RotatingCache.dfy`): a byte-budgeted cache object, the eviction loop, and the plain
  map it must agree with.
- **Mentions** (`mobile/lib/mentions.ts`, `web/components/MentionTextarea.tsx`,
  `web/components/Caption.tsx`, in `MentionText.dfy` and `Captions.dfy`): token detection, insertion,
  rescanning and rendering, and how the two clients relate.
- **Order cost arithmetic** (`mobile/lib/signing.ts`, in `OrderCost.dfy`): escrow, fee and the signed
  maximum, exactly, in token base units, and the bound `contracts/src/markets/ThassaMarkets.sol` holds it to.
- **Shared socket subscriptions** (`mobile/lib/ws.ts`, in `SocketModel.dfy`, `SharedSocket.dfy`).

`Bytes.dfy`, `Utf8.dfy`, `Ascii.dfy`, `RustText.dfy`, `StableSort.dfy` and `Wrappers.dfy` hold what these
share. Code that updates state in place is a class or a method with loops, proved equal to a
specification function or to a step of a state machine; the laws are lemmas about those. Everything
verifies with `dafny verify dfyconfig.toml`.

## Where the code and its documentation differ

- `mobile/lib/signing.ts:51-57` says the maximum cost covers the worst case. Fees are rounded up per fill,
  so with fewer than six token decimals two fills can cost one unit more: `OrderCost.FundedIffSixDecimals`
  gives the exact condition and `OrderCost.PartialFillsCovered` the bound that always holds.
- `mobile/lib/cache.ts:24-27` says pinned entries are evicted only when nothing else remains and the budget is
  still exceeded. Expired pinned entries go before anything is scored, after seven days where media has thirty
  (`CacheModel.ExpiredPinGoesFirst` is a run in which that happens). `CacheEviction.PinnedPromiseIff` says
  exactly when the whole promise is kept; with unpinned entries below the bonus that is when no pinned entry
  has expired (`CacheEviction.PinnedPromiseIffNoneExpired`). `CacheEviction.PinnedAlwaysGoLastIff` treats its
  first half alone, and `CacheEviction.BonusProtectsIff` says what the bonus is worth.
- `mobile/lib/signing.ts:51-53` calls the signed maximum the worst case; of an order placed in a batch the
  contract demands one unit a share more (`contracts/src/markets/ThassaMarkets.sol:323-327`, `:537-543`) and
  rejects it if its maximum is below that. `OrderCost.MeetsBoundIffAboveHalf` gives the batch orders that pass,
  and `OrderCost.WebShortOfBound` shows that none the web client signs does. The order that opens a market is
  compared with its escrow alone (`contracts/src/markets/ThassaMarkets.sol:187-193`), and both clients'
  maxima reach that (`OrderCost.OpeningOrderCovered`).
- `mobile/lib/ws.ts:12-15` speaks of one connection. A second connect attempt can begin while the first waits
  for its token (`SocketModel.SecondAttemptLeavesSocket`), and a late close can make the client forget its
  socket (`SocketModel.LateCloseLeavesSocket`); `SocketModel.SingleIff` and `SocketModel.SingleThroughoutIff`
  say exactly when the connection stays single. The agreement with the current socket's server does not depend
  on it (`SocketModel.EveryRunAgrees`).
- `mobile/lib/ws.ts:15` says subscriptions are refcounted. Stopping the session clears the counts, also those of
  hooks that stay mounted: `SocketModel.CountsThroughoutIff` says exactly when the counts stay right, and
  `SocketModel.StopWhileHeldUnsubscribes` how a hook then loses its channel.
- `mobile/lib/mentions.ts:33-34` says an `@` glued to a word is not a mention; the detector agrees, the
  scan does not look (`MentionText.GluedMentionOnMobileOnly`). `MentionText.ScansAgreeIff` gives the texts on
  which the two clients still report the same mentions.
- `DATA_SHAPING_GUIDE.txt:31-43` allows arrays, nested tuples and integers of any width. Of all the types of its
  grammar the parser accepts exactly the flat tuples of supported primitives
  (`GuideShapes.GuideShapeParsesIff`); of those with Solidity's widths it refuses exactly the nested ones and the
  ones with integers wider than 128 bits (`GuideShapes.RefusedIffNestedOrWide`), such as the guide's first
  example, `tuple(nav:uint256,asOf:uint64)` (`GuideShapes.GuideExampleRefused`). Beyond the guide it accepts,
  through integer parsing, spellings such as `bytes+4` and `uint08` (`Shape.OddSpellingsSupported`).
- At the largest block number the scanner loses its cursor and starts over (`BidScanner.RescansAfterMax`);
  `BidScanner.EveryRunTiles` holds exactly for the runs that never scan so far.

## Model

| member | source | states |
|---|---|---|
| `AbiFormat.EncodeFieldEncodings` | rust_node/src/format.rs:64-82 | the one-pass loop builds exactly the recursive head/tail encoding of the ABI specification, and a decoder that knows only which fields are dynamic recovers the fields from it |
| `AbiFormat.EncodeDynamicAbiBytes` | rust_node/src/format.rs:84-90 | a dynamic value is its length word, its bytes, and zeros up to a word boundary |
| `AbiFormat.PaddedLen` | rust_node/src/format.rs:92-98 | the least multiple of 32 not below the length |
| `AbiFormat.AbiWordFromUsize` | rust_node/src/format.rs:100-105 | the word reads back, big-endian, as the number |
| `AbiFormat.TailsTile` | rust_node/src/format.rs:69-81 | tails start where the head ends, follow one another without gap or overlap up to the end, and each dynamic head slot holds the offset of its own tail |
| `AbiFormat.RoundTrip` | rust_node/src/format.rs:64-105 | decoding the encoding by kinds gives back every list of fields |
| `AbiFormat.Injective` | rust_node/src/format.rs:64-105 | two lists of the same kinds with the same bytes are the same list |
| `AbiFormat.StrictDecodeIff` | rust_node/src/format.rs:64-105 | a strict reader, which demands every offset in its place, zero padding and nothing behind the last tail, accepts precisely the encodings |
| `Utf8.RoundTrip` | rust_node/src/noir.rs:477-486 | the bytes of a string determine the string |
| `Utf8.AsciiBytes` | rust_node/src/noir.rs:477-486 | ASCII text is written one byte a character |
| `Shape.SplitTopLevel` | rust_node/src/shape.rs:202-239 | succeeds exactly on balanced text, and then yields balanced parts with no separator outside brackets that rejoin to the input |
| `Shape.SplitUnique` | rust_node/src/shape.rs:202-239 | there is only one such way to split a text |
| `Shape.SplitOfJoin` | rust_node/src/shape.rs:202-239 | bracket-free parts without separators are what their own join splits into |
| `Shape.ValidateFields` | rust_node/src/shape.rs:6-26 | reports the first complaint of the first field that has one |
| `Shape.ValidateIffValid` | rust_node/src/shape.rs:6-26 | passes exactly the non-empty lists of named, typed, pairwise differently named fields of supported types |
| `Shape.RejectedForFirstComplaint` | rust_node/src/shape.rs:6-26 | a rejection names the first thing wrong with the first bad field: its name, its type, a repetition, or an unsupported type |
| `Shape.SupportedTypeChars` | rust_node/src/shape.rs:141-190 | a supported trimmed type is spelled with letters, digits and plus signs only, so it can hide no separator |
| `Shape.OddSpellingsSupported` | rust_node/src/shape.rs:153-190 | `bytes+4` and `uint08` are supported, `uint256` is not |
| `Shape.RenderExpectedShapeDsl` | rust_node/src/shape.rs:126-139 | the printer's loop writes the validated fields as one canonical text |
| `Shape.ParseExpectedShapeDsl` | rust_node/src/shape.rs:28-82 | the parser's loops compute the specification parser, errors included |
| `Shape.ParseIsCanonical` | rust_node/src/shape.rs:42-81 | whatever parses has identifier names, distinct, trimmed supported types and no optional attributes |
| `Shape.ParseOfRender` | rust_node/src/shape.rs:28-139 | printing a canonical field list and parsing it gives the list back |
| `Shape.GateIsRenderings` | rust_node/src/workflow.rs:148-160 | the strings that pass the exact-shape gate are precisely the printed canonical lists |
| `Shape.RenderOfParseIsCanonicalForm` | rust_node/src/workflow.rs:148-160 | print-after-parse keeps the meaning, is idempotent, passes the gate, and is the identity exactly on strings that pass |
| `Shape.ParsePrintable` | rust_node/src/shape.rs:28-139 | what the parser makes of any printed fields, of supported types or not: it reads each back and then validates them |
| `Shape.ParsedBodyIsPlain` | rust_node/src/shape.rs:42-81 | no shape with a bracket inside its outer parentheses ever parses, so no array and no nested tuple |
| `ShapeSpacing.SpacedFieldParses` | rust_node/src/shape.rs:42-63 | a field reads the same with any blanks around its name and its type |
| `ShapeSpacing.SpacedShapeParses` | rust_node/src/shape.rs:28-82 | a shape spaced out with blanks and line breaks, around the text, around its fields and inside them, parses exactly as the printed one |
| `GuideShapes.WidthParses` | rust_node/src/shape.rs:153-190 | a written width parses back exactly when it is a 64-bit number |
| `GuideShapes.SupportedWidths` | rust_node/src/shape.rs:141-190 | for every number m, `uintm` and `intm` are supported, as integers, exactly for multiples of 8 from 8 to 128, and `bytesm`, as a string, from 1 to 32 |
| `GuideShapes.GuideShapeParsesIff` | DATA_SHAPING_GUIDE.txt:31-37 | of all types in the guide's grammar, the parser accepts exactly the flat tuples of supported primitives under different names, and reads their fields back |
| `GuideShapes.RefusedIffNestedOrWide` | DATA_SHAPING_GUIDE.txt:31-43 | with the widths Solidity has, a tuple is refused exactly when it nests or has an integer wider than 128 bits |
| `GuideShapes.GuideExampleRefused` | DATA_SHAPING_GUIDE.txt:41-41 | the guide's own first example is refused |
| `AbiPlan.CoercedKind` | rust_node/src/format.rs:107-134 | whether a field is static or dynamic is decided by its type alone, whatever the value and the library conversions |
| `AbiPlan.CoerceCarries` | rust_node/src/format.rs:107-145 | coercion gives precisely the encoding that carries the leaf: text or bytes as they are, `bytesN` as N bytes with zeros behind them, other types as their word; and it fails precisely when the leaf does not convert or has not N bytes |
| `AbiPlan.BuildAbiEncodingPlan` | rust_node/src/format.rs:47-62 | the loop plans the fields in order and stops at the first error |
| `AbiPlan.ValidateStructuredOutput` | rust_node/src/workflow.rs:833-854 | accepts an object exactly when its keys are the field names; otherwise names the first missing field or reports extra ones |
| `AbiPlan.ExactKeys` | rust_node/src/workflow.rs:838-851 | with distinct names, containing every name and equal counts is equality of key sets |
| `AbiPlan.ShapeToBytes` | rust_node/src/workflow.rs:148-256 | for a parsed shape and an accepted object, planning fails exactly when some value does not convert; the plan carries the value of each field, in order, and the shape string alone suffices to decode the callback bytes to it |
| `NoirInputs.ChunkPublicFields` | rust_node/src/noir.rs:852-882 | fails exactly when the bytes do not fit the chunks; otherwise gives the zero-padded 31-byte chunks and their number |
| `NoirInputs.ChunkRoundTrip` | rust_node/src/noir.rs:852-882 | chunks and length give the bytes back |
| `NoirInputs.BuildPublicInputs` | rust_node/src/noir.rs:809-850 | always 29+9+5 words, from whose positions every field of the statement is read back, the fulfilment flag always as true |
| `NoirInputs.ReadsBack` | rust_node/src/noir.rs:809-898 | the position table of the public inputs inverts their construction, limbs and addresses included |
| `NoirInputs.WordsAreSmall` | rust_node/src/noir.rs:809-898 | every public word is below 2^248 |
| `NoirInputs.PackPublicInputs` | rust_node/src/noir.rs:979-987 | the loop packs the words big-endian |
| `NoirInputs.PackRoundTrip` | rust_node/src/noir.rs:979-987 | unpacking gives the words back |
| `NoirInputs.PackedDetermines` | rust_node/src/noir.rs:809-987 | two statements have the same packed inputs exactly when they agree on everything but the fulfilment flag |
| `NoirWitness.FitBytes` | rust_node/src/noir.rs:951-977 | fails exactly on overlong values; otherwise pads with zeros to the fixed size |
| `NoirWitness.FillTables` | rust_node/src/noir.rs:468-505 | succeeds exactly when every name, type and dynamic value fits; then each slot holds its own field and the unused slots are all zero |
| `NoirWitness.TablesReadBack` | rust_node/src/noir.rs:468-505 | the filled tables decode to the names, types and plan they were filled from |
| `NoirWitness.CheckInput` | rust_node/src/noir.rs:365-466 | passes exactly when counts, sizes, hashes, attested bytes, recipient and printed shape all agree |
| `RustText.DecimalReadsBack` | rust_node/src/noir.rs:920-922 | a number written in decimal reads back |
| `NoirWitness.PrepareNoirProofInput` | rust_node/src/noir.rs:365-673 | succeeds exactly under the stated condition, and then the witness decodes to the fields and plan, re-encoding gives the callback bytes, re-printing gives the shape string, every buffer reads back, the public inputs read back, packed and in decimal, as the whole statement with the flag true, and the copied entries agree with it |
| `NoirVerifier.UsedChunksAreCanonical` | contracts/src/ThassaNoirVerifier.sol:260-282 | the loop over the used chunks passes exactly when each begins with a zero byte and the last is zero behind its bytes |
| `NoirVerifier.ExtractChunkedBytes` | contracts/src/ThassaNoirVerifier.sol:235-258 | the copying loops take the bytes out of the chunks, 31 from each |
| `NoirVerifier.VerifyUpdate` | contracts/src/ThassaNoirVerifier.sol:52-90 | the contract's checks, in its order, pass exactly when the words are laid out canonically, ask for the expected request, and match the update |
| `NoirVerifier.AcceptsIffNodeWords` | contracts/src/ThassaNoirVerifier.sol:52-347 | the words the contract accepts for an update are precisely those the node builds for it and for the expected request, every position, limb, chunk count and padding byte included |
| `NoirVerifier.PreparedIsAccepted` | rust_node/src/noir.rs:365-673 | whatever the node prepares for the expected request passes the contract's checks for the update it submits |
| `BidScanner.FulfillBidWithRetries` | rust_node/src/workflow.rs:664-689 | stops at the first success or the attempt limit, whichever comes first, and reports the outcome of its last attempt |
| `BidScanner.RunBidScanner` | rust_node/src/workflow.rs:573-662 | the loop is a run of the step relation, failing reads included |
| `BidScanner.StepKeepsGood` | rust_node/src/workflow.rs:582-661 | one turn of the loop, failing or not, keeps the tiling, the range bound and the attempt bound exactly when it does not scan up to the largest block number, which is exactly when the cursor is not lost |
| `BidScanner.ScannedBidsAttempted` | rust_node/src/workflow.rs:625-657 | a turn that scans deals with every bid of the range once, in order: none for an unreadable client, else attempts up to the first success or the limit; other turns with none |
| `BidScanner.StartsBehindFirstHead` | rust_node/src/workflow.rs:591-600 | scanning starts the configured number of blocks behind the first head read, or at block 0, and not before a head is read |
| `BidScanner.EveryRunTiles` | rust_node/src/workflow.rs:573-662 | in a run over any heads the successful scans tile the blocks from start to cursor, each within the range limit and at or below the head it was read under, with no bid over the attempt limit, exactly when no scan has ended at the largest block number; so always when every head is below it |
| `BidScanner.EachBlockScannedOnce` | rust_node/src/workflow.rs:573-662 | unless a scan has ended at the largest block number, every block from the backfill behind the first head up to the cursor lies in exactly one successful scan |
| `BidScanner.PassesFixedHead` | rust_node/src/workflow.rs:602-623 | under a fixed head, a stretch of turns passes it exactly when at least ceil(remaining / range) of them succeed, however many fail |
| `BidScanner.RescansAfterMax` | rust_node/src/workflow.rs:591-623 | a concrete run in which blocks are then scanned twice |
| `StableSort.SortStable` | mobile/lib/cache.ts:252-252 | the sort the loop relies on keeps the order of equal scores |
| `StableSort.SortWithoutMinimum` | mobile/lib/cache.ts:248-256 | sorting again after removing the minimum gives the rest of the first sort |
| `CacheEviction.RankOfKeep` | mobile/lib/cache.ts:248-256 | removing minima one at a time, re-sorting each time, walks down one stable sort |
| `CacheEviction.FitsIffWithinBudget` | mobile/lib/cache.ts:241-258 | room is made for an item exactly when the item alone is within the budget |
| `CacheEviction.EvictedScoreLow` | mobile/lib/cache.ts:248-256 | no evicted entry scores above a surviving one |
| `CacheEviction.LastEvictionNeeded` | mobile/lib/cache.ts:248-256 | with the last victim put back the item would not fit |
| `CacheEviction.PinnedOutlastsUnpinned` | mobile/lib/cache.ts:97-107 | an unexpired pinned entry is never evicted by score while an unpinned one below the bonus stays |
| `CacheEviction.PinnedStaysIffFresh` | mobile/lib/cache.ts:97-258 | beside a kept unpinned entry below the bonus, a pinned entry stays exactly when it has not expired |
| `CacheEviction.PinnedAlwaysGoLastIff` | mobile/lib/cache.ts:24-27 | the first half of the documented promise, that a pinned entry goes only if nothing unpinned remains, holds for every item to be stored exactly when the cache holds no expired pinned entry or no unexpired unpinned one |
| `CacheEviction.PinnedPromiseIff` | mobile/lib/cache.ts:24-27 | the whole promise, that nothing unpinned remains and the budget is still exceeded at the entry's turn, holds for every item to be stored exactly when no pinned entry has expired and none ranks below an unpinned one with bytes to be had between them |
| `CacheEviction.PinnedPromiseIffNoneExpired` | mobile/lib/cache.ts:24-27 | with unpinned entries below the bonus, the whole promise holds exactly when no pinned entry has expired |
| `CacheEviction.BonusProtectsIff` | mobile/lib/cache.ts:97-102 | every pinned entry outscores a given unpinned one exactly when that one is below the bonus: its hits plus one are at most 10^12 times one plus its age in hours |
| `CacheEviction.ScoreInMilliseconds` | mobile/lib/cache.ts:97-102 | without the bonus, the score times one plus the hours since the last access is hits plus one |
| `CacheEviction.MoreUsedScoresHigher` | mobile/lib/cache.ts:97-102 | within a tier, strictly more hits and no older access means a strictly higher score |
| `CacheEviction.MoreUsedGoesLater` | mobile/lib/cache.ts:97-258 | an entry with more hits and no older access is evicted by score only if every less used entry of its tier goes, too |
| `CacheModel.StepKeepsInv` | mobile/lib/cache.ts:228-477 | puts, adoptions, clean-ups, reads and vanishing files keep the byte sum, the budget, distinct keys and files, and the agreement with the plain map |
| `CacheModel.EveryReachableStateGood` | mobile/lib/cache.ts:228-477 | that invariant holds in every state of every run from an empty cache |
| `CacheModel.ReadsAgreeWithPlainMap` | mobile/lib/cache.ts:281-345 | in every run a read answers nothing or the latest payload put under that very key |
| `CacheModel.StepKeepsPromise` | mobile/lib/cache.ts:228-477 | a file in use keeps its contents, while it exists, through every step: no name is written twice |
| `CacheModel.InterruptedReadAgrees` | mobile/lib/cache.ts:281-325 | a read interrupted by any steps between finding its entry and reading the file answers nothing or the payload that was the latest of its key when it began |
| `CacheModel.PlainMapIsLastPut` | mobile/lib/cache.ts:327-345 | the plain map is the last put of each key in the run's history |
| `CacheModel.FreshPutIsRead` | mobile/lib/cache.ts:407-430 | a put can be read back exactly when it fit, was written and is at most seven days old, thirty for media, and then it is that payload |
| `CacheModel.EntriesRecordHistory` | mobile/lib/cache.ts:281-477 | in every run each live entry is what the last put of its key says, size, tier, sort and creation time; its hits are one and the reads since; its last access is the clock of the last of those, or of the put |
| `CacheModel.ExpiredPinGoesFirst` | mobile/lib/cache.ts:104-258 | a run of puts and a read in which a pinned entry, read on its last millisecond, goes with the budget all but empty while a picture as old stays |
| `RotatingCache.RotatingCache.RemoveEntry` | mobile/lib/cache.ts:228-237 | exactly this entry and its bytes go, the clamp at zero never acts, and no live entry's file is touched |
| `RotatingCache.RotatingCache.EvictToFit` | mobile/lib/cache.ts:241-258 | returns true exactly for items within the budget, terminates, and leaves exactly what one stable sort and its shortest sufficient prefix leave |
| `RotatingCache.RotatingCache.WriteEntry` | mobile/lib/cache.ts:407-430 | a put step of the state machine, whatever the file system does, keeping the invariant |
| `RotatingCache.RotatingCache.AdoptFile` | mobile/lib/cache.ts:440-477 | a put step for a moved file; a returned file holds the adopted content |
| `RotatingCache.RotatingCache.PutJSON` | mobile/lib/cache.ts:327-345 | data that does not serialise changes nothing; other data is a put |
| `RotatingCache.RotatingCache.BeginGetJSON` | mobile/lib/cache.ts:281-299 | finds the unexpired entry, whose file promises the latest payload; a clean-up is queued exactly for an expired one |
| `RotatingCache.RotatingCache.FinishGetJSON` | mobile/lib/cache.ts:300-325 | after any steps in between, answers nothing or the payload promised when the read began; a hit is counted on the entry if it is still there, and a clean-up is queued exactly for an unreadable file |
| `RotatingCache.RotatingCache.GetJSON` | mobile/lib/cache.ts:281-325 | uninterrupted, the answer is that of the plain map or nothing |
| `RotatingCache.RotatingCache.RunQueuedDrop` | mobile/lib/cache.ts:291-297 | removes whatever entry the key has by then, keeping the invariant |
| `RotatingCache.RotatingCache.CachedMediaFile` | mobile/lib/cache.ts:361-378 | a returned file holds the latest media payload of that key |
| `MentionText.ExecToken` | mobile/lib/mentions.ts:73-73 | the regular expression's match: the first token from the given index, with its maximal name |
| `MentionText.ActiveUnique` | mobile/lib/mentions.ts:26-39 | at most one token is active at a caret |
| `MentionText.ActiveMentionToken` | mobile/lib/mentions.ts:26-39 | finds the active token exactly when there is one, for every caret |
| `MentionText.ActiveTokenAt` | web/components/MentionTextarea.tsx:52-60 | finds the same token as the mobile detector for every caret in range |
| `MentionText.LastPickCounts` | mobile/lib/mentions.ts:68-69 | a name is recorded, in lower case, exactly if some pick has it, under the id of the last such pick |
| `MentionText.ComputeMentions` | mobile/lib/mentions.ts:63-78 | jumping from match to match lists the same mentions as looking at every position |
| `MentionText.ScanExact` | mobile/lib/mentions.ts:63-78 | the scan lists precisely the `@` positions whose maximal word is a recorded name, in order, in range and disjoint |
| `MentionText.InsertedToken` | mobile/lib/mentions.ts:43-55 | the inserted text is a token with exactly the username, at the old token's start, with the rest of the text behind the new caret and one space between, unless the text ends there or goes on with a space |
| `MentionText.MentionSplice` | mobile/lib/mentions.ts:26-78 | inserting a recorded username at the active token and rescanning gives the old mentions before it, the new one, and the old ones behind the caret shifted by the length change |
| `MentionText.DeriveMentions` | web/components/MentionTextarea.tsx:29-44 | the web loop lists the boundary-delimited exact-case mentions at every position |
| `MentionText.WebScanIsPart` | web/components/MentionTextarea.tsx:29-44 | with names unique up to case, it is exactly the part of the mobile scan with a left boundary and the recorded case |
| `MentionText.ScansAgreeIff` | web/components/MentionTextarea.tsx:29-44 | with names unique up to case, the two clients report the same mentions exactly when no mention of the mobile scan is glued to a word or spelled in another case |
| `MentionText.GluedMentionOnMobileOnly` | mobile/lib/mentions.ts:72-75 | a concrete text on which only the mobile scan reports a mention |
| `Captions.SegmentCaption` | mobile/lib/mentions.ts:88-115 | the loop's segments, with each mention's source slice put back, concatenate to the caption |
| `Captions.RenderCaption` | web/components/Caption.tsx:12-41 | the same for the web client's nodes |
| `Captions.SegmentationLossless` | mobile/lib/mentions.ts:88-115 | no text is lost or repeated, for any mention list, valid or not |
| `Captions.DroppedForAReason` | mobile/lib/mentions.ts:92-108 | a mention that is not shown is invalid or begins inside a shown one |
| `Captions.SegmentsTidy` | mobile/lib/mentions.ts:104-114 | no text segment is empty and none follows another |
| `Captions.ScannedMentionsAllShown` | mobile/lib/mentions.ts:63-115 | no mention the scan produced is dropped, and all are shown in order |
| `Captions.ClientsAgree` | web/components/Caption.tsx:12-41 | both clients cut a non-empty caption alike when every mention has a username |
| `Captions.ClippingIsSafe` | web/components/Caption.tsx:45-50 | clipping keeps exactly the mentions that end in time, and changes nothing that would have been shown |
| `OrderCost.EscrowsSumToPayout` | mobile/lib/signing.ts:45-49 | from two decimals on, the escrows of the two sides sum to exactly one dollar a share |
| `OrderCost.CollateralisedIffTwoDecimals` | mobile/lib/signing.ts:45-49 | that law holds for all orders exactly when the token has two decimals or more |
| `OrderCost.FeeIsCeiling` | mobile/lib/signing.ts:29-40 | the fee is the least number of units not below 7% of s·p·(100-p)/10^4 dollars |
| `OrderCost.EscrowIsFloor` | mobile/lib/signing.ts:45-49 | the escrow is the greatest number of units not above p cents a share |
| `OrderCost.FeeSymmetric` | mobile/lib/signing.ts:36-40 | the fee is the same at p and at 100 - p |
| `OrderCost.FeeAtMost` | mobile/lib/signing.ts:36-40 | the fee never exceeds 1.75 cents a share, rounded up |
| `OrderCost.WorstPrice` | mobile/lib/signing.ts:51-57 | among prices up to the limit, min(limit, 50) has the greatest fee base |
| `OrderCost.PartialFillsCovered` | mobile/lib/signing.ts:36-57 | k fills at the limit or better cost at most the signed maximum plus k - 1 units |
| `OrderCost.FundedFromSixDecimals` | mobile/lib/signing.ts:36-57 | from six decimals on, no split costs more than the signed maximum |
| `OrderCost.FundedIffSixDecimals` | mobile/lib/signing.ts:36-57 | the signed maximum covers every split of every order exactly when the token has six decimals or more |
| `OrderCost.WorstCaseCovers` | contracts/src/markets/ThassaMarkets.sol:537-543 | the bound the contract demands is sound: the fills of an order, of at least one share each at the limit or better, and the escrow of its unfilled rest at the limit never cost more |
| `OrderCost.MeetsBoundIffAboveHalf` | contracts/src/markets/ThassaMarkets.sol:323-327 | from six decimals on, the maximum the mobile client signs reaches that bound exactly for orders above 50 cents, so the others are rejected when placed in a batch |
| `OrderCost.MeetsBoundIffSixDecimals` | mobile/lib/signing.ts:54-57 | all orders above 50 cents reach it exactly when the token has six decimals or more |
| `OrderCost.WebShortOfBound` | web/lib/signing.ts:105-107 | the maximum the web client signs is always one unit a share below it |
| `OrderCost.OpeningOrderCovered` | contracts/src/markets/ThassaMarkets.sol:187-193 | the maxima of both clients reach what is demanded of the order that opens a market, its escrow |
| `OrderCost.SharesAreGreatest` | mobile/lib/signing.ts:65-68 | a share count is affordable exactly when it does not exceed the returned one |
| `SocketModel.HeldAgrees` | mobile/lib/ws.ts:126-130 | taking a channel keeps the server in agreement with the counts, and the counts with the holders |
| `SocketModel.ReleasedAgrees` | mobile/lib/ws.ts:131-139 | releasing a channel does, too, and keeps the server in agreement even when a stop has forgotten the count |
| `SocketModel.NextAgrees` | mobile/lib/ws.ts:61-158 | every event of every socket, stops at any time included, keeps the agreement with the server, however many connect attempts are in flight; and it keeps the counts right exactly when it is not a stop while a hook holds a channel |
| `SocketModel.EveryRunAgrees` | mobile/lib/ws.ts:61-158 | in every run, with any number of attempts in flight and stops at any time, the server of an open current socket has exactly the channels with a count |
| `SocketModel.BackoffLaw` | mobile/lib/ws.ts:70-93 | in every run the backoff is min(1000·2^k, 15000), where k counts, from the events alone, the closes of the running session since the last open |
| `SocketModel.TryingIff` | mobile/lib/ws.ts:61-93 | a running session has a socket, an attempt or a timer, and no step ends that but one: its only attempt gets no token |
| `SocketModel.TryingThroughoutIff` | mobile/lib/ws.ts:61-93 | that lifted to runs |
| `SocketModel.StoppedIsQuiet` | mobile/lib/ws.ts:61-120 | a stopped session begins no attempt and makes no socket until it is started |
| `SocketModel.CountsThroughoutIff` | mobile/lib/ws.ts:109-158 | each count is the number of mounted holders throughout a run exactly when the session is never stopped while a hook holds a channel |
| `SocketModel.StopWhileHeldUnsubscribes` | mobile/lib/ws.ts:109-139 | after such a stop, the next mount and unmount of that channel leave a mounted hook without a count |
| `SocketModel.SingleIff` | mobile/lib/ws.ts:61-93 | one connection stays one on every step except exactly two: a token that arrives while a live socket is current, and the late close of a replaced socket |
| `SocketModel.SingleThroughoutIff` | mobile/lib/ws.ts:61-93 | a run has one connection throughout exactly when it takes no such step |
| `SocketModel.OneAtATimeIsSingle` | mobile/lib/ws.ts:61-93 | if no attempt begins while another attempt or any socket is there, there is never a second socket |
| `SocketModel.SecondAttemptLeavesSocket` | mobile/lib/ws.ts:61-69 | a concrete run in which a hook mounts while the first token is awaited and two sockets end up open |
| `SocketModel.LateCloseLeavesSocket` | mobile/lib/ws.ts:86-120 | a concrete run with at most one attempt at a time, in which the late close of a stopped socket makes the client forget the open one |
| `SocketModel.MountUnmountRestores` | mobile/lib/ws.ts:147-155 | mounting and unmounting a hook undoes itself, on the server as well |
| `SocketModel.ReopenResubscribes` | mobile/lib/ws.ts:70-77 | when the current socket opens, its server is told exactly the channels held then |
| `SharedSocket.SharedSocket.OnOpen` | mobile/lib/ws.ts:70-77 | the resubscribing loop is the open step and keeps the agreement |
| `SharedSocket.SharedSocket.OnClose` | mobile/lib/ws.ts:86-93 | the reconnect delay is min(1000·2^k, 15000), k read off the events so far, and the step keeps the agreement |
| `SharedSocket.SharedSocket.OnTimer` | mobile/lib/ws.ts:90-90 | a timer that fires begins an attempt |
| `SharedSocket.SharedSocket.AddSubscription` | mobile/lib/ws.ts:126-130 | the counting step; only the first holder sends |
| `SharedSocket.SharedSocket.RemoveSubscription` | mobile/lib/ws.ts:131-139 | the counting step; only the last holder sends |
| `SharedSocket.SharedSocket.BeginConnect` | mobile/lib/ws.ts:61-63 | an attempt begins unless there is a socket, even while another waits for its token |
| `SharedSocket.SharedSocket.TokenArrived` | mobile/lib/ws.ts:63-69 | a granted token makes a socket the current one, whatever was current before, and keeps the agreement |
| `SharedSocket.SharedSocket.StopSocket` | mobile/lib/ws.ts:109-120 | the stop step; it keeps right counts right exactly when no hook holds a channel |
| `SharedSocket.SharedSocket.MountHook` | mobile/lib/ws.ts:147-151 | a mounting hook keeps the agreement |
| `SharedSocket.SharedSocket.UnmountHook` | mobile/lib/ws.ts:152-155 | an unmounting hook keeps the agreement |

## Left out

- AbiFormat.RoundTrip: stated for encodings shorter than 2^64 bytes, which every byte vector of the 64-bit node is.
- AbiPlan.CoercedKind: the conversions of JSON leaves to bytes and words (number, address, hexadecimal parsing) are parameters; integer values are not checked against their width, as in the node.
- CacheModel.StepKeepsInv: each queued operation is one atomic step; reads may be interrupted between finding their entry and reading the file, by whole operations. `clear`, which resets the file counter, is not part of the runs.
- CacheEviction.PinnedAlwaysGoLastIff: the unpinned entries are below the bonus, as every entry with fewer than 10^12 hits is; CacheEviction.PinnedPromiseIff does without.
- CacheEviction.BonusProtectsIff: scores are exact reals, not floating-point numbers.
- CacheModel.EveryReachableStateGood: runs start from an empty manifest; loading a stored one, whose byte sum the code does not check, is not modelled.
- RotatingCache.RotatingCache.FinishGetJSON: an entry object held across an await is identified by its file, which no other entry shares.
- Cache keys that look like array indices would be enumerated in numeric order; the app's keys start with `GET:` or `MEDIA:`.
- MentionText.MentionSplice: usernames are ASCII words, as the specification requires, so lower-casing is on ASCII; positions count code units and a text is any sequence of characters.
- OrderCost.SharesAreGreatest: the spend is an exact rational, not a floating-point number.
- SocketModel.BackoffLaw: the order in which timers fire, and real time, are not modelled; a pending timer may fire at any moment.
- OrderCost.MeetsBoundIffAboveHalf: the taker fee is the contract's initial 700 basis points, which the clients assume; the rest of the contract is not part of this model.
- NoirWitness.PrepareNoirProofInput: keccak is an uninterpreted function.
- NoirVerifier.VerifyUpdate: the circuit verifier's answer and the proof scheme are inputs; calldata decoding is Unpack.
- ShapeSpacing.SpacedShapeParses: blanks are spaces, tabs and line breaks; other Unicode white space is trimmed as well, which the theorem does not speak of.
- Shape.SplitTopLevel: bracket depths are unbounded integers, not 32-bit ones; the separator is not itself a bracket, as at both call sites.
- MentionText.ActiveTokenAt: the caret is within the text, where a text area's caret always is.
- GuideShapes.GuideShapeParsesIff: the guide leaves the widths open; they are any numbers, written in decimal.
- The text of error messages, and which of several failed hash checks is reported.
- Building the JSON schema, the LLM request, attestation, proving and submission: input and output.
- The web client's own insertion, which always adds a space, and draft bookkeeping.
