/**
 The contract that checks a Noir proof's public inputs against an update, and the proof that
 the words it accepts are precisely those the node builds for that update.
 */
module NoirVerifier {
  import opened Bytes
  import opened NoirInputs
  import NoirWitness
  import Utf8

  const EXPECTED_WORDS: nat := 43
  const MAX_URL_BYTES: nat := 256
  const MAX_ENDPOINT_BYTES: nat := 128

  /** What the hub passes to the verifier, and what the verifier knows itself. */
  datatype Context = Context(
    digest: Word,
    bidId: U256,
    autoFlow: bool,
    client: Address,
    fulfiller: Address,
    queryHash: Word,
    shapeHash: Word,
    modelHash: Word,
    clientVersion: U64,
    requestTimestamp: U64,
    inputData: seq<byte>,
    responseId: Word,
    callbackData: seq<byte>,
    expectedAttestor: Address,
    hub: Address,
    chainId: U64)

  type Hash = seq<byte> -> Word

  // ----- single words -----

  predicate IsU128(v: U256) { v < TWO_128 }

  /** Two 128-bit limbs, the high one first, that make up this word. */
  predicate MatchesLimbs(high: U256, low: U256, word: Word) {
    IsU128(high) && IsU128(low) && ToBytes(high * TWO_128 + low, WORD_BYTES) == word
  }

  predicate MatchesNumber(high: U256, low: U256, value: U256) {
    IsU128(high) && IsU128(low) && high * TWO_128 + low == value
  }

  predicate MatchesBool(v: U256, b: bool) { v <= 1 && (v == 1 <==> b) }

  predicate MatchesAddress(v: U256, a: Address) {
    v < Pow256(ADDRESS_BYTES) && ToBytes(v, ADDRESS_BYTES) == a
  }

  /** The checks on the words that say who and what the update is for. */
  predicate IdentityMatches(w: seq<U256>, ctx: Context)
    requires |w| == EXPECTED_WORDS
  {
    && w[0] == 1
    && MatchesLimbs(w[1], w[2], ctx.digest)
    && MatchesNumber(w[3], w[4], ctx.bidId)
    && MatchesBool(w[5], ctx.autoFlow)
    && MatchesAddress(w[6], ctx.client)
    && MatchesAddress(w[7], ctx.fulfiller)
    && MatchesAddress(w[8], ctx.expectedAttestor)
    && MatchesAddress(w[23], ctx.hub)
    && w[24] == ctx.chainId
  }

  /** The checks on the words that say what it contains. */
  predicate ContentMatches(w: seq<U256>, ctx: Context, keccak: Hash)
    requires |w| == EXPECTED_WORDS
  {
    && MatchesLimbs(w[9], w[10], ctx.queryHash)
    && MatchesLimbs(w[11], w[12], ctx.shapeHash)
    && MatchesLimbs(w[13], w[14], ctx.modelHash)
    && w[15] == ctx.clientVersion
    && w[16] == ctx.requestTimestamp
    && MatchesLimbs(w[17], w[18], keccak(ctx.inputData))
    && MatchesLimbs(w[19], w[20], ctx.responseId)
    && MatchesLimbs(w[21], w[22], keccak(ctx.callbackData))
  }

  predicate PrefixMatches(w: seq<U256>, ctx: Context, keccak: Hash)
    requires |w| == EXPECTED_WORDS
  {
    IdentityMatches(w, ctx) && ContentMatches(w, ctx, keccak)
  }

  // ----- chunks -----

  function ExpectedChunkCount(length: nat): nat {
    if length == 0 then 0 else (length - 1) / 31 + 1
  }

  function ChunkBytes(v: U256): Word { ToBytes(v, WORD_BYTES) }

  /** The used chunks begin with a zero byte, and the last one is zero behind the bytes it holds. */
  predicate UsedCanonical(chunks: seq<U256>, length: nat)
    requires ExpectedChunkCount(length) <= |chunks|
  {
    && (forall i :: 0 <= i < ExpectedChunkCount(length) ==> ChunkBytes(chunks[i])[0] == 0)
    && (length > 0 ==>
         var last := ExpectedChunkCount(length) - 1;
         ZeroFrom(ChunkBytes(chunks[last]), length - 31 * last + 1))
  }

  predicate ZeroFrom(word: Word, from: nat) {
    forall j :: from <= j < WORD_BYTES ==> word[j] == 0
  }

  predicate UnusedZero(chunks: seq<U256>, used: nat) {
    forall i :: used <= i < |chunks| ==> chunks[i] == 0
  }

  predicate ChunksCanonical(chunks: seq<U256>, length: U256, count: U256, maxBytes: nat) {
    && length <= maxBytes
    && count <= |chunks|
    && count == ExpectedChunkCount(length)
    && UsedCanonical(chunks, length)
    && UnusedZero(chunks, count)
  }

  /** The bytes that chunks hold: 31 in each, behind its first byte. */
  function Extracted(chunks: seq<U256>, length: nat): (data: seq<byte>)
    requires length <= 31 * |chunks|
    ensures |data| == length
  {
    seq(length, k requires 0 <= k < length => ChunkBytes(chunks[k / 31])[1 + k % 31])
  }

  method UsedChunksAreCanonical(chunks: seq<U256>, length: nat) returns (ok: bool)
    requires ExpectedChunkCount(length) <= |chunks|
    ensures ok <==> UsedCanonical(chunks, length)
  {
    var used := ExpectedChunkCount(length);
    for i := 0 to used
      invariant forall k :: 0 <= k < i ==> ChunkBytes(chunks[k])[0] == 0
      invariant i == used > 0 ==> ZeroFrom(ChunkBytes(chunks[used - 1]), length - 31 * (used - 1) + 1)
    {
      var chunk := ChunkBytes(chunks[i]);
      if chunk[0] != 0 {
        return false;
      }
      if i == used - 1 {
        var usedBytes := length - 31 * i;
        for j := usedBytes + 1 to WORD_BYTES
          invariant forall k :: usedBytes + 1 <= k < j ==> chunk[k] == 0
        {
          if chunk[j] != 0 {
            return false;
          }
        }
      }
    }
    return true;
  }

  method UnusedChunksAreZero(chunks: seq<U256>, used: nat) returns (ok: bool)
    requires used <= |chunks|
    ensures ok <==> UnusedZero(chunks, used)
  {
    for i := used to |chunks|
      invariant forall k :: used <= k < i ==> chunks[k] == 0
    {
      if chunks[i] != 0 {
        return false;
      }
    }
    return true;
  }

  method ValidateChunks(chunks: seq<U256>, length: U256, count: U256, maxBytes: nat) returns (ok: bool)
    ensures ok <==> ChunksCanonical(chunks, length, count, maxBytes)
  {
    if length > maxBytes || count > |chunks| {
      return false;
    }
    if count != ExpectedChunkCount(length) {
      return false;
    }
    var canonical := UsedChunksAreCanonical(chunks, length);
    if !canonical {
      return false;
    }
    ok := UnusedChunksAreZero(chunks, count);
  }

  method ExtractChunkedBytes(chunks: seq<U256>, length: nat) returns (data: seq<byte>)
    requires ExpectedChunkCount(length) <= |chunks|
    ensures length <= 31 * |chunks| && data == Extracted(chunks, length)
  {
    data := [];
    for i := 0 to ExpectedChunkCount(length)
      invariant |data| == if 31 * i <= length then 31 * i else length
      invariant forall k :: 0 <= k < |data| ==> data[k] == ChunkBytes(chunks[k / 31])[1 + k % 31]
    {
      var chunk := ChunkBytes(chunks[i]);
      var copyLength := if length - |data| > 31 then 31 else length - |data|;
      data := data + chunk[1..1 + copyLength];
    }
  }

  // ----- the whole check -----

  function UrlChunks(w: seq<U256>): (chunks: seq<U256>)
    requires |w| == EXPECTED_WORDS
    ensures |chunks| == URL_CHUNKS
  {
    w[PREFIX_WORDS..PREFIX_WORDS + URL_CHUNKS]
  }

  function EndpointChunks(w: seq<U256>): (chunks: seq<U256>)
    requires |w| == EXPECTED_WORDS
    ensures |chunks| == ENDPOINT_CHUNKS
  {
    w[PREFIX_WORDS + URL_CHUNKS..]
  }

  predicate LayoutCanonical(w: seq<U256>)
    requires |w| == EXPECTED_WORDS
  {
    && ChunksCanonical(UrlChunks(w), w[25], w[26], MAX_URL_BYTES)
    && ChunksCanonical(EndpointChunks(w), w[27], w[28], MAX_ENDPOINT_BYTES)
  }

  const BASE_URL: string := "https://api.openai.com/v1"
  const ENDPOINT: string := "/chat/completions"

  predicate IsExpectedRequest(url: seq<byte>, endpoint: seq<byte>, keccak: Hash) {
    keccak(url) == keccak(Utf8.Encode(BASE_URL)) && keccak(endpoint) == keccak(Utf8.Encode(ENDPOINT))
  }

  predicate Accepts(w: seq<U256>, ctx: Context, keccak: Hash) {
    && ctx.client != Zeros(ADDRESS_BYTES) && ctx.fulfiller != Zeros(ADDRESS_BYTES)
    && |w| == EXPECTED_WORDS
    && LayoutCanonical(w)
    && IsExpectedRequest(Extracted(UrlChunks(w), w[25]), Extracted(EndpointChunks(w), w[27]), keccak)
    && PrefixMatches(w, ctx, keccak)
  }

  /** `proofVerifies` is what the generated circuit verifier answers for these words. */
  method VerifyUpdate(w: seq<U256>, ctx: Context, keccak: Hash, proofVerifies: bool) returns (ok: bool)
    ensures ok <==> proofVerifies && Accepts(w, ctx, keccak)
  {
    if ctx.client == Zeros(ADDRESS_BYTES) || ctx.fulfiller == Zeros(ADDRESS_BYTES) {
      return false;
    }
    if |w| != EXPECTED_WORDS || !proofVerifies {
      return false;
    }
    var urlOk := ValidateChunks(UrlChunks(w), w[25], w[26], MAX_URL_BYTES);
    if !urlOk {
      return false;
    }
    var endpointOk := ValidateChunks(EndpointChunks(w), w[27], w[28], MAX_ENDPOINT_BYTES);
    if !endpointOk {
      return false;
    }
    var url := ExtractChunkedBytes(UrlChunks(w), w[25]);
    var endpoint := ExtractChunkedBytes(EndpointChunks(w), w[27]);
    if !IsExpectedRequest(url, endpoint, keccak) {
      return false;
    }
    ok := PrefixMatches(w, ctx, keccak);
  }

  // ----- the verifier against the node's encoder -----

  /** The statement the update stands for. */
  function StatementFor(ctx: Context, keccak: Hash, url: seq<byte>, endpoint: seq<byte>): Statement {
    Statement(
      Commitment(true, ctx.digest, ctx.bidId, ctx.autoFlow, ctx.client, ctx.fulfiller, ctx.queryHash, ctx.shapeHash,
                 ctx.modelHash, keccak(ctx.inputData), ctx.responseId, ctx.clientVersion, ctx.requestTimestamp,
                 keccak(ctx.callbackData)),
      ctx.expectedAttestor, ctx.hub, ctx.chainId, url, endpoint)
  }

  lemma LimbsIff(high: U256, low: U256, word: Word)
    ensures MatchesLimbs(high, low, word) <==> high == HashHigh(word) && low == HashLow(word)
  {
    ToFromBytes(word);
    if IsU128(high) && IsU128(low) {
      Pow256Values();
      FromToBytes(high * TWO_128 + low, WORD_BYTES);
      LimbsUnique(high, low, WordValue(word));
    }
  }

  lemma LimbsUnique(high: nat, low: nat, value: nat)
    requires low < TWO_128
    ensures high * TWO_128 + low == value <==> high == value / TWO_128 && low == value % TWO_128
  {
  }

  lemma AddressIff(v: U256, a: Address)
    ensures MatchesAddress(v, a) <==> v == AddressValue(a)
  {
    ToFromBytes(a);
    FromBytesBound(a);
    if v < Pow256(ADDRESS_BYTES) {
      FromToBytes(v, ADDRESS_BYTES);
    }
  }

  lemma NumberIff(high: U256, low: U256, value: U256)
    ensures MatchesNumber(high, low, value) <==> high == High(value) && low == Low(value)
  {
    if IsU128(low) {
      LimbsUnique(high, low, value);
    }
  }

  /** The identity words as the node writes them. */
  predicate IdentityWords(w: seq<U256>, ctx: Context)
    requires |w| == EXPECTED_WORDS
  {
    && w[0] == 1
    && w[1] == HashHigh(ctx.digest) && w[2] == HashLow(ctx.digest)
    && w[3] == High(ctx.bidId) && w[4] == Low(ctx.bidId)
    && w[5] == BoolValue(ctx.autoFlow)
    && w[6] == AddressValue(ctx.client) && w[7] == AddressValue(ctx.fulfiller)
    && w[8] == AddressValue(ctx.expectedAttestor)
    && w[23] == AddressValue(ctx.hub) && w[24] == ctx.chainId
  }

  lemma IdentityIff(w: seq<U256>, ctx: Context)
    requires |w| == EXPECTED_WORDS
    ensures IdentityMatches(w, ctx) <==> IdentityWords(w, ctx)
  {
    LimbsIff(w[1], w[2], ctx.digest);
    NumberIff(w[3], w[4], ctx.bidId);
    AddressIff(w[6], ctx.client);
    AddressIff(w[7], ctx.fulfiller);
    AddressIff(w[8], ctx.expectedAttestor);
    AddressIff(w[23], ctx.hub);
  }

  lemma IdentityPrefix(w: seq<U256>, ctx: Context, keccak: Hash, url: seq<byte>, endpoint: seq<byte>)
    requires |w| == EXPECTED_WORDS && Chunkable(StatementFor(ctx, keccak, url, endpoint))
    ensures var p := PrefixWords(StatementFor(ctx, keccak, url, endpoint));
      IdentityWords(w, ctx) <==> w[..9] == p[..9] && w[23..25] == p[23..25]
  {
    var p := PrefixWords(StatementFor(ctx, keccak, url, endpoint));
    if w[..9] == p[..9] && w[23..25] == p[23..25] {
      assert forall i :: 0 <= i < 9 ==> w[i] == w[..9][i] == p[..9][i] == p[i];
      assert w[23] == w[23..25][0] == p[23] && w[24] == w[23..25][1] == p[24];
    }
  }

  predicate ContentWords(w: seq<U256>, ctx: Context, keccak: Hash)
    requires |w| == EXPECTED_WORDS
  {
    && w[9] == HashHigh(ctx.queryHash) && w[10] == HashLow(ctx.queryHash)
    && w[11] == HashHigh(ctx.shapeHash) && w[12] == HashLow(ctx.shapeHash)
    && w[13] == HashHigh(ctx.modelHash) && w[14] == HashLow(ctx.modelHash)
    && w[15] == ctx.clientVersion && w[16] == ctx.requestTimestamp
    && w[17] == HashHigh(keccak(ctx.inputData)) && w[18] == HashLow(keccak(ctx.inputData))
    && w[19] == HashHigh(ctx.responseId) && w[20] == HashLow(ctx.responseId)
    && w[21] == HashHigh(keccak(ctx.callbackData)) && w[22] == HashLow(keccak(ctx.callbackData))
  }

  lemma ContentIff(w: seq<U256>, ctx: Context, keccak: Hash)
    requires |w| == EXPECTED_WORDS
    ensures ContentMatches(w, ctx, keccak) <==> ContentWords(w, ctx, keccak)
  {
    LimbsIff(w[9], w[10], ctx.queryHash);
    LimbsIff(w[11], w[12], ctx.shapeHash);
    LimbsIff(w[13], w[14], ctx.modelHash);
    LimbsIff(w[17], w[18], keccak(ctx.inputData));
    LimbsIff(w[19], w[20], ctx.responseId);
    LimbsIff(w[21], w[22], keccak(ctx.callbackData));
  }

  lemma ContentPrefix(w: seq<U256>, ctx: Context, keccak: Hash, url: seq<byte>, endpoint: seq<byte>)
    requires |w| == EXPECTED_WORDS && Chunkable(StatementFor(ctx, keccak, url, endpoint))
    ensures var p := PrefixWords(StatementFor(ctx, keccak, url, endpoint));
      ContentWords(w, ctx, keccak) <==> w[9..23] == p[9..23]
  {
    var p := PrefixWords(StatementFor(ctx, keccak, url, endpoint));
    if w[9..23] == p[9..23] {
      assert forall i :: 9 <= i < 23 ==> w[i] == w[9..23][i - 9] == p[9..23][i - 9] == p[i];
    }
  }

  /** The prefix checks pass exactly for the node's first 25 words. */
  lemma PrefixIff(w: seq<U256>, ctx: Context, keccak: Hash, url: seq<byte>, endpoint: seq<byte>)
    requires |w| == EXPECTED_WORDS && Chunkable(StatementFor(ctx, keccak, url, endpoint))
    ensures PrefixMatches(w, ctx, keccak) <==> w[..25] == PrefixWords(StatementFor(ctx, keccak, url, endpoint))[..25]
  {
    IdentityIff(w, ctx);
    ContentIff(w, ctx, keccak);
    IdentityPrefix(w, ctx, keccak, url, endpoint);
    ContentPrefix(w, ctx, keccak, url, endpoint);
    ThreeSlices(w, PrefixWords(StatementFor(ctx, keccak, url, endpoint)));
  }

  lemma ThreeSlices(w: seq<U256>, p: seq<U256>)
    requires |w| >= 25 && |p| >= 25
    ensures w[..25] == p[..25] <==> w[..9] == p[..9] && w[9..23] == p[9..23] && w[23..25] == p[23..25]
  {
    assert w[..25] == w[..9] + w[9..23] + w[23..25] && p[..25] == p[..9] + p[9..23] + p[23..25];
    assert w[..25][..9] == w[..9] && w[..25][9..23] == w[9..23] && w[..25][23..] == w[23..25];
    assert p[..25][..9] == p[..9] && p[..25][9..23] == p[9..23] && p[..25][23..] == p[23..25];
  }

  // ----- chunks against the node's chunks -----

  /** A chunk as a 32-byte word is a zero byte and its 31 bytes. */
  lemma ChunkAsWord(slice: seq<byte>)
    requires |slice| == 31
    ensures ChunkBytes(ChunkValue(slice)) == [0] + slice
  {
    FromBytesLeadingZeros(1, slice);
    assert Zeros(1) + slice == [0] + slice;
    ToFromBytes([0] + slice);
  }

  /** And a word that begins with a zero byte is a chunk. */
  lemma WordAsChunk(v: U256)
    requires ChunkBytes(v)[0] == 0
    ensures ChunkValue(ChunkBytes(v)[1..]) == v
  {
    var word := ChunkBytes(v);
    assert word == Zeros(1) + word[1..];
    FromBytesLeadingZeros(1, word[1..]);
    Pow256Values();
    FromToBytes(v, WORD_BYTES);
  }

  function Slice(raw: seq<byte>, count: nat, i: nat): (slice: seq<byte>)
    requires FitsChunks(raw, count) && i < count
    ensures |slice| == 31
    ensures forall k :: 0 <= k < 31 ==> slice[k] == if 31 * i + k < |raw| then raw[31 * i + k] else 0
  {
    Padded(raw, CHUNK_BYTES * count)[CHUNK_BYTES * i..CHUNK_BYTES * (i + 1)]
  }

  lemma CountsAgree(raw: seq<byte>)
    ensures ExpectedChunkCount(|raw|) == ChunkCount(raw)
    ensures forall i: nat :: i < ChunkCount(raw) <==> 31 * i < |raw|
  {
  }

  /** The node's chunks are canonical and hold the bytes they were cut from. */
  lemma NodeChunksCanonical(raw: seq<byte>, count: nat, maxBytes: nat)
    requires FitsChunks(raw, count) && |raw| <= maxBytes && |raw| < TWO_256
    ensures ChunkCount(raw) <= count && ChunksCanonical(ChunkWords(raw, count), |raw|, ChunkCount(raw), maxBytes)
    ensures Extracted(ChunkWords(raw, count), |raw|) == raw
  {
    CountsAgree(raw);
    var chunks := ChunkWords(raw, count);
    forall i | 0 <= i < count
      ensures ChunkBytes(chunks[i]) == [0] + Slice(raw, count, i)
    {
      NodeChunk(raw, count, i);
    }
    forall i | ChunkCount(raw) <= i < count
      ensures chunks[i] == 0
    {
      ChunkOfZeros(raw, count, i);
    }
    if |raw| > 0 {
      LastChunk(raw, count, ChunkCount(raw) - 1);
    }
    forall k | 0 <= k < |raw|
      ensures Extracted(chunks, |raw|)[k] == raw[k]
    {
      assert Slice(raw, count, k / 31)[k % 31] == raw[k];
    }
  }

  lemma NodeChunk(raw: seq<byte>, count: nat, i: nat)
    requires FitsChunks(raw, count) && i < count
    ensures ChunkBytes(ChunkWords(raw, count)[i]) == [0] + Slice(raw, count, i)
  {
    ChunkAsWord(Slice(raw, count, i));
  }

  lemma LastChunk(raw: seq<byte>, count: nat, last: nat)
    requires FitsChunks(raw, count) && last < count && 31 * last < |raw| <= 31 * (last + 1)
    ensures ZeroFrom(ChunkBytes(ChunkWords(raw, count)[last]), |raw| - 31 * last + 1)
  {
    NodeChunk(raw, count, last);
  }

  /** Canonical chunks are the node's chunks of the bytes they hold. */
  lemma CanonicalIsNodes(chunks: seq<U256>, length: U256, count: U256, maxBytes: nat)
    requires ChunksCanonical(chunks, length, count, maxBytes)
    ensures length <= 31 * |chunks|
    ensures var raw := Extracted(chunks, length);
      FitsChunks(raw, |chunks|) && chunks == ChunkWords(raw, |chunks|) && count == ChunkCount(raw)
  {
    var raw := Extracted(chunks, length);
    CountsAgree(raw);
    forall i | 0 <= i < |chunks|
      ensures chunks[i] == ChunkWords(raw, |chunks|)[i]
    {
      if i < count {
        UsedChunkIsSlice(chunks, length, i);
        WordAsChunk(chunks[i]);
      } else {
        ChunkOfZeros(raw, |chunks|, i);
      }
    }
  }

  lemma UsedChunkIsSlice(chunks: seq<U256>, length: nat, i: nat)
    requires ExpectedChunkCount(length) <= |chunks| && i < ExpectedChunkCount(length)
    requires UsedCanonical(chunks, length)
    ensures length <= 31 * |chunks|
    ensures ChunkBytes(chunks[i])[1..] == Slice(Extracted(chunks, length), |chunks|, i)
  {
    var raw, last := Extracted(chunks, length), ExpectedChunkCount(length) - 1;
    var word, slice := ChunkBytes(chunks[i]), Slice(raw, |chunks|, i);
    assert length > 31 * i && (length < 31 * (i + 1) ==> i == last);
    forall k | 0 <= k < 31
      ensures word[1..][k] == slice[k]
    {
      if 31 * i + k < length {
        DivMod(i, k);
      } else {
        assert word[1 + k] == 0;
      }
    }
  }

  lemma DivMod(i: nat, k: nat)
    requires k < 31
    ensures (31 * i + k) / 31 == i && (31 * i + k) % 31 == k
  {
  }

  // ----- the words accepted are the words built -----

  /** The node's words for a statement about this update, with the request the verifier expects. */
  ghost predicate NodeWords(w: seq<U256>, ctx: Context, keccak: Hash, url: seq<byte>, endpoint: seq<byte>) {
    && |url| <= MAX_URL_BYTES && |endpoint| <= MAX_ENDPOINT_BYTES
    && IsExpectedRequest(url, endpoint, keccak)
    && w == PublicInputs(StatementFor(ctx, keccak, url, endpoint))
  }

  lemma NodeWordsAccepted(w: seq<U256>, ctx: Context, keccak: Hash, url: seq<byte>, endpoint: seq<byte>)
    requires ctx.client != Zeros(ADDRESS_BYTES) && ctx.fulfiller != Zeros(ADDRESS_BYTES)
    requires NodeWords(w, ctx, keccak, url, endpoint)
    ensures Accepts(w, ctx, keccak)
  {
    var s := StatementFor(ctx, keccak, url, endpoint);
    WordsSplit(s);
    NodeChunksCanonical(url, URL_CHUNKS, MAX_URL_BYTES);
    NodeChunksCanonical(endpoint, ENDPOINT_CHUNKS, MAX_ENDPOINT_BYTES);
    PrefixIff(w, ctx, keccak, url, endpoint);
  }

  /** Where the parts of the public inputs are. */
  lemma WordsSplit(s: Statement)
    requires Chunkable(s)
    ensures var w := PublicInputs(s);
      && |w| == EXPECTED_WORDS
      && w[..25] == PrefixWords(s)[..25]
      && w[25] == |s.url| && w[26] == ChunkCount(s.url) && w[27] == |s.endpoint| && w[28] == ChunkCount(s.endpoint)
      && UrlChunks(w) == ChunkWords(s.url, URL_CHUNKS) && EndpointChunks(w) == ChunkWords(s.endpoint, ENDPOINT_CHUNKS)
  {
    var w, p := PublicInputs(s), PrefixWords(s);
    assert w == p + (ChunkWords(s.url, URL_CHUNKS) + ChunkWords(s.endpoint, ENDPOINT_CHUNKS));
    assert forall i :: 0 <= i < PREFIX_WORDS ==> w[i] == p[i];
  }

  lemma AcceptedAreNodeWords(w: seq<U256>, ctx: Context, keccak: Hash)
    returns (url: seq<byte>, endpoint: seq<byte>)
    requires Accepts(w, ctx, keccak)
    ensures NodeWords(w, ctx, keccak, url, endpoint)
  {
    CanonicalIsNodes(UrlChunks(w), w[25], w[26], MAX_URL_BYTES);
    CanonicalIsNodes(EndpointChunks(w), w[27], w[28], MAX_ENDPOINT_BYTES);
    url, endpoint := Extracted(UrlChunks(w), w[25]), Extracted(EndpointChunks(w), w[27]);
    var s := StatementFor(ctx, keccak, url, endpoint);
    WordsSplit(s);
    PrefixIff(w, ctx, keccak, url, endpoint);
    SameWords(w, PublicInputs(s));
  }

  lemma SameWords(w: seq<U256>, v: seq<U256>)
    requires |w| == |v| == EXPECTED_WORDS && w[..25] == v[..25]
    requires w[25] == v[25] && w[26] == v[26] && w[27] == v[27] && w[28] == v[28]
    requires UrlChunks(w) == UrlChunks(v) && EndpointChunks(w) == EndpointChunks(v)
    ensures w == v
  {
    assert w == w[..25] + [w[25], w[26], w[27], w[28]] + UrlChunks(w) + EndpointChunks(w);
    assert v == v[..25] + [v[25], v[26], v[27], v[28]] + UrlChunks(v) + EndpointChunks(v);
  }

  /** The contract accepts words for an update exactly when they are the words the node builds for it and
      for the expected request, every chunk count, limb and padding byte included. */
  lemma AcceptsIffNodeWords(w: seq<U256>, ctx: Context, keccak: Hash)
    requires ctx.client != Zeros(ADDRESS_BYTES) && ctx.fulfiller != Zeros(ADDRESS_BYTES)
    ensures Accepts(w, ctx, keccak) <==> exists url, endpoint :: NodeWords(w, ctx, keccak, url, endpoint)
  {
    if Accepts(w, ctx, keccak) {
      var url, endpoint := AcceptedAreNodeWords(w, ctx, keccak);
    } else {
      forall url, endpoint | NodeWords(w, ctx, keccak, url, endpoint)
        ensures false
      {
        NodeWordsAccepted(w, ctx, keccak, url, endpoint);
      }
    }
  }

  // ----- from the prepared proof to the contract -----

  /** The update the node submits with a prepared proof. */
  function SubmittedUpdate(input: NoirWitness.NoirInput, callbackData: seq<byte>): Context {
    var c := input.commitment;
    Context(c.digest, c.bidId, c.autoFlow, c.client, c.fulfiller, c.queryHash, c.shapeHash, c.modelHash,
            c.clientVersion, c.requestTimestamp, Utf8.Encode(input.request.inputDataJson), c.responseId, callbackData,
            input.attestation.attestor, input.hub, input.chainId)
  }

  /** The fulfilment flag does not show in the words. */
  lemma FlagInvisible(s: Statement, flag: bool)
    requires Chunkable(s)
    ensures PublicInputs(s.(commitment := s.commitment.(llmFulfilled := flag))) == PublicInputs(s)
  {
  }

  lemma SameStatement(input: NoirWitness.NoirInput, keccak: Hash, callbackData: seq<byte>)
    requires keccak(callbackData) == input.commitment.callbackHash
    requires keccak(Utf8.Encode(input.request.inputDataJson)) == input.commitment.inputDataHash
    ensures var s := NoirWitness.StatementOf(input);
      StatementFor(SubmittedUpdate(input, callbackData), keccak, s.url, s.endpoint)
      == s.(commitment := s.commitment.(llmFulfilled := true))
  {
  }

  lemma RequestFits(input: NoirWitness.NoirInput, w: NoirWitness.Witness)
    requires NoirWitness.RequestBuffers(input.request, w)
    ensures var s := NoirWitness.StatementOf(input); |s.url| <= MAX_URL_BYTES && |s.endpoint| <= MAX_ENDPOINT_BYTES
  {
    assert NoirWitness.HoldsAt(w, 3, 256, Utf8.Encode(input.request.baseUrl));
    assert NoirWitness.HoldsAt(w, 4, 128, Utf8.Encode(input.request.endpoint));
  }

  lemma StatementAccepted(s: Statement, ctx: Context, keccak: Hash)
    requires |s.url| <= MAX_URL_BYTES && |s.endpoint| <= MAX_ENDPOINT_BYTES
    requires IsExpectedRequest(s.url, s.endpoint, keccak)
    requires ctx.client != Zeros(ADDRESS_BYTES) && ctx.fulfiller != Zeros(ADDRESS_BYTES)
    requires StatementFor(ctx, keccak, s.url, s.endpoint) == s.(commitment := s.commitment.(llmFulfilled := true))
    ensures Accepts(PublicInputs(s), ctx, keccak)
  {
    FlagInvisible(s, true);
    NodeWordsAccepted(PublicInputs(s), ctx, keccak, s.url, s.endpoint);
  }

  /** Whatever the node prepares for the expected request passes the contract's checks for its update. */
  lemma PreparedIsAccepted(input: NoirWitness.NoirInput, keccak: Hash, p: NoirWitness.PreparedProof)
    requires NoirWitness.Checked(input, keccak) && input.fields != []
    requires NoirWitness.Faithful(input, p)
    requires input.commitment.client != Zeros(ADDRESS_BYTES) && input.commitment.fulfiller != Zeros(ADDRESS_BYTES)
    requires input.request.baseUrl == BASE_URL && input.request.endpoint == ENDPOINT
    ensures Accepts(p.publicInputs, SubmittedUpdate(input, p.callbackData), keccak)
  {
    SameStatement(input, keccak, p.callbackData);
    RequestFits(input, p.witnessFile);
    StatementAccepted(NoirWitness.StatementOf(input), SubmittedUpdate(input, p.callbackData), keccak);
  }
}
