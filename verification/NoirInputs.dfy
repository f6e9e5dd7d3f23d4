/**
 The public inputs of the Noir proof: a commitment, three addresses and the chain id in
 29 words, then the OpenAI base URL and endpoint in 31-byte chunks; packed as 43
 big-endian words. The decoder reads every field back from its position.
 */
module NoirInputs {
  import opened Bytes
  import opened Wrappers

  const TWO_128: nat := 0x1_0000_0000_0000_0000_0000_0000_0000_0000
  const TWO_256: nat := TWO_128 * TWO_128

  type U256 = v: int | 0 <= v < TWO_256
  type U64 = v: int | 0 <= v < TWO_64
  type U32 = v: int | 0 <= v < 0x1_0000_0000

  const ADDRESS_BYTES: nat := 20

  type Address = a: seq<byte> | |a| == ADDRESS_BYTES witness Zeros(ADDRESS_BYTES)

  const PREFIX_WORDS: nat := 29
  const URL_CHUNKS: nat := 9
  const ENDPOINT_CHUNKS: nat := 5
  const CHUNK_BYTES: nat := 31

  datatype Commitment = Commitment(
    llmFulfilled: bool,
    digest: Word,
    bidId: U256,
    autoFlow: bool,
    client: Address,
    fulfiller: Address,
    queryHash: Word,
    shapeHash: Word,
    modelHash: Word,
    inputDataHash: Word,
    responseId: Word,
    clientVersion: U64,
    requestTimestamp: U64,
    callbackHash: Word)

  /** Everything the public inputs are built from. */
  datatype Statement = Statement(
    commitment: Commitment,
    attestor: Address,
    hub: Address,
    chainId: U64,
    url: seq<byte>,
    endpoint: seq<byte>)

  // ----- words and limbs -----

  lemma WordValueBound(w: Word)
    ensures FromBytes(w) < TWO_256
  {
    FromBytesBound(w);
    Pow256Values();
  }

  function WordValue(w: Word): (v: U256)
    ensures v == FromBytes(w)
  {
    WordValueBound(w);
    FromBytes(w)
  }

  function High(v: U256): (h: U256)
    ensures h < TWO_128
  {
    v / TWO_128
  }

  function Low(v: U256): (l: U256)
    ensures l < TWO_128
  {
    v % TWO_128
  }

  function AddressValue(a: Address): (v: U256)
    ensures v < TWO_248
  {
    FromBytesBound(a);
    Pow256Values();
    Pow256Monotone(ADDRESS_BYTES, 31);
    FromBytes(a)
  }

  function BoolValue(b: bool): U256 { if b then 1 else 0 }

  // ----- 31-byte chunks -----

  predicate FitsChunks(raw: seq<byte>, count: nat) {
    |raw| <= CHUNK_BYTES * count
  }

  function Padded(raw: seq<byte>, length: nat): (p: seq<byte>)
    requires |raw| <= length
    ensures |p| == length
  {
    raw + Zeros(length - |raw|)
  }

  function ChunkValue(chunk: seq<byte>): (v: U256)
    requires |chunk| == CHUNK_BYTES
    ensures v < TWO_248
  {
    FromBytesBound(chunk);
    Pow256Values();
    FromBytes(chunk)
  }

  /** `raw` cut into `count` chunks of 31 bytes, zero-filled at the end, one number each. */
  function ChunkWords(raw: seq<byte>, count: nat): (words: seq<U256>)
    requires FitsChunks(raw, count)
    ensures |words| == count
    ensures forall i :: 0 <= i < count ==> words[i] < TWO_248
  {
    seq(count, i requires 0 <= i < count =>
      ChunkValue(Padded(raw, CHUNK_BYTES * count)[CHUNK_BYTES * i..CHUNK_BYTES * (i + 1)]))
  }

  function ChunkCount(raw: seq<byte>): nat {
    (|raw| + (CHUNK_BYTES - 1)) / CHUNK_BYTES
  }

  function Unchunk(words: seq<U256>): (raw: seq<byte>)
    ensures |raw| == CHUNK_BYTES * |words|
  {
    if words == [] then []
    else Unchunk(words[..|words| - 1]) + ToBytes(words[|words| - 1], CHUNK_BYTES)
  }

  datatype ChunkError = TooManyChunks

  method ChunkPublicFields(raw: seq<byte>, count: nat)
    returns (r: Result<(seq<U256>, nat), ChunkError>)
    ensures r.Ok? <==> FitsChunks(raw, count)
    ensures r.Ok? ==> r.value == (ChunkWords(raw, count), ChunkCount(raw))
  {
    var chunks: seq<U256> := seq(count, _ => 0);
    var chunkCount := 0;
    var idx := 0;
    while CHUNK_BYTES * idx < |raw|
      invariant |chunks| == count
      invariant idx <= count && chunkCount == idx
      invariant CHUNK_BYTES * idx < |raw| + CHUNK_BYTES
      invariant FitsChunks(raw, count) ==> forall j :: 0 <= j < idx ==> chunks[j] == ChunkWords(raw, count)[j]
      invariant forall j :: idx <= j < count ==> chunks[j] == 0
      decreases |raw| - CHUNK_BYTES * idx
    {
      if idx >= count {
        return Err(TooManyChunks);
      }
      var end := if CHUNK_BYTES * (idx + 1) <= |raw| then CHUNK_BYTES * (idx + 1) else |raw|;
      var chunk := raw[CHUNK_BYTES * idx..end];
      var word := [0] + chunk + Zeros(CHUNK_BYTES - |chunk|);
      chunks := chunks[idx := WordValue(word)];
      ChunkOfPadded(raw, count, idx, word);
      idx := idx + 1;
      chunkCount := idx;
    }
    if raw == [] {
      chunkCount := 0;
    }
    if chunkCount > count {
      return Err(TooManyChunks);
    }
    forall j | idx <= j < count
      ensures ChunkWords(raw, count)[j] == 0
    {
      ChunkOfZeros(raw, count, j);
    }
    assert chunks == ChunkWords(raw, count);
    r := Ok((chunks, chunkCount));
  }

  lemma ChunkOfPadded(raw: seq<byte>, count: nat, idx: nat, word: Word)
    requires idx < count && CHUNK_BYTES * idx < |raw|
    requires var end := if CHUNK_BYTES * (idx + 1) <= |raw| then CHUNK_BYTES * (idx + 1) else |raw|;
      word == [0] + raw[CHUNK_BYTES * idx..end] + Zeros(CHUNK_BYTES - (end - CHUNK_BYTES * idx))
    ensures FitsChunks(raw, count) ==> WordValue(word) == ChunkWords(raw, count)[idx]
  {
    if FitsChunks(raw, count) {
      var chunk := Padded(raw, CHUNK_BYTES * count)[CHUNK_BYTES * idx..CHUNK_BYTES * (idx + 1)];
      assert word == Zeros(1) + chunk;
      FromBytesLeadingZeros(1, chunk);
    }
  }

  lemma ChunkOfZeros(raw: seq<byte>, count: nat, idx: nat)
    requires FitsChunks(raw, count)
    requires idx < count && |raw| <= CHUNK_BYTES * idx
    ensures ChunkWords(raw, count)[idx] == 0
  {
    assert Padded(raw, CHUNK_BYTES * count)[CHUNK_BYTES * idx..CHUNK_BYTES * (idx + 1)] == Zeros(CHUNK_BYTES);
    FromZeros(CHUNK_BYTES);
  }

  lemma {:induction false} UnchunkWords(words: seq<U256>, padded: seq<byte>)
    requires |padded| == CHUNK_BYTES * |words|
    requires forall i :: 0 <= i < |words| ==>
      words[i] == FromBytes(padded[CHUNK_BYTES * i..CHUNK_BYTES * (i + 1)])
    ensures Unchunk(words) == padded
  {
    if words != [] {
      var n := |words| - 1;
      var init, last := padded[..CHUNK_BYTES * n], padded[CHUNK_BYTES * n..CHUNK_BYTES * (n + 1)];
      forall i | 0 <= i < n
        ensures words[..n][i] == FromBytes(init[CHUNK_BYTES * i..CHUNK_BYTES * (i + 1)])
      {
        assert init[CHUNK_BYTES * i..CHUNK_BYTES * (i + 1)] == padded[CHUNK_BYTES * i..CHUNK_BYTES * (i + 1)];
      }
      UnchunkWords(words[..n], init);
      ToFromBytes(last);
      assert padded == init + last;
    }
  }

  /** Chunks and length give the bytes back. */
  lemma ChunkRoundTrip(raw: seq<byte>, count: nat)
    requires FitsChunks(raw, count)
    ensures Unchunk(ChunkWords(raw, count))[..|raw|] == raw
  {
    UnchunkWords(ChunkWords(raw, count), Padded(raw, CHUNK_BYTES * count));
  }

  // ----- the layout of the public inputs -----

  predicate Chunkable(s: Statement) {
    FitsChunks(s.url, URL_CHUNKS) && FitsChunks(s.endpoint, ENDPOINT_CHUNKS)
  }

  function HashHigh(w: Word): (h: U256)
    ensures h < TWO_128
  {
    High(WordValue(w))
  }

  function HashLow(w: Word): (l: U256)
    ensures l < TWO_128
  {
    Low(WordValue(w))
  }

  function PrefixWords(s: Statement): (words: seq<U256>)
    requires Chunkable(s)
    ensures |words| == PREFIX_WORDS
  {
    var c := s.commitment;
    [ 1,
      HashHigh(c.digest), HashLow(c.digest),
      High(c.bidId), Low(c.bidId),
      BoolValue(c.autoFlow),
      AddressValue(c.client), AddressValue(c.fulfiller), AddressValue(s.attestor),
      HashHigh(c.queryHash), HashLow(c.queryHash),
      HashHigh(c.shapeHash), HashLow(c.shapeHash),
      HashHigh(c.modelHash), HashLow(c.modelHash),
      c.clientVersion, c.requestTimestamp,
      HashHigh(c.inputDataHash), HashLow(c.inputDataHash),
      HashHigh(c.responseId), HashLow(c.responseId),
      HashHigh(c.callbackHash), HashLow(c.callbackHash),
      AddressValue(s.hub), s.chainId,
      |s.url|, ChunkCount(s.url),
      |s.endpoint|, ChunkCount(s.endpoint) ]
  }

  function PublicInputs(s: Statement): seq<U256>
    requires Chunkable(s)
  {
    PrefixWords(s) + ChunkWords(s.url, URL_CHUNKS) + ChunkWords(s.endpoint, ENDPOINT_CHUNKS)
  }

  method PushU256Limbs(target: seq<U256>, value: U256) returns (out: seq<U256>)
    ensures out == target + [High(value), Low(value)]
  {
    out := target + [value / TWO_128];
    out := out + [value % TWO_128];
  }

  method PushH256Limbs(target: seq<U256>, value: Word) returns (out: seq<U256>)
    ensures out == target + [HashHigh(value), HashLow(value)]
  {
    out := PushU256Limbs(target, WordValue(value));
  }

  method PushIdentity(s: Statement) returns (inputs: seq<U256>)
    requires Chunkable(s)
    ensures inputs == PrefixWords(s)[..9]
  {
    var c := s.commitment;
    inputs := [1];
    inputs := PushH256Limbs(inputs, c.digest);
    inputs := PushU256Limbs(inputs, c.bidId);
    inputs := inputs + [BoolValue(c.autoFlow)];
    inputs := inputs + [AddressValue(c.client)];
    inputs := inputs + [AddressValue(c.fulfiller)];
    inputs := inputs + [AddressValue(s.attestor)];
  }

  method PushHashes(s: Statement, before: seq<U256>) returns (inputs: seq<U256>)
    requires Chunkable(s)
    requires before == PrefixWords(s)[..9]
    ensures inputs == PrefixWords(s)[..23]
  {
    var c := s.commitment;
    inputs := PushH256Limbs(before, c.queryHash);
    inputs := PushH256Limbs(inputs, c.shapeHash);
    inputs := PushH256Limbs(inputs, c.modelHash);
    inputs := inputs + [c.clientVersion];
    inputs := inputs + [c.requestTimestamp];
    assert inputs == PrefixWords(s)[..17];
    inputs := PushH256Limbs(inputs, c.inputDataHash);
    inputs := PushH256Limbs(inputs, c.responseId);
    inputs := PushH256Limbs(inputs, c.callbackHash);
  }

  method BuildPublicInputs(s: Statement, urlChunkCount: U32, urlChunks: seq<U256>,
                           endpointChunkCount: U32, endpointChunks: seq<U256>)
    returns (inputs: seq<U256>)
    requires Chunkable(s)
    requires urlChunks == ChunkWords(s.url, URL_CHUNKS) && urlChunkCount == ChunkCount(s.url)
    requires endpointChunks == ChunkWords(s.endpoint, ENDPOINT_CHUNKS) && endpointChunkCount == ChunkCount(s.endpoint)
    ensures inputs == PublicInputs(s)
    ensures |inputs| == PREFIX_WORDS + URL_CHUNKS + ENDPOINT_CHUNKS
    ensures ReadStatement(inputs) == s.(commitment := s.commitment.(llmFulfilled := true))
  {
    ReadsBack(s);
    inputs := PushIdentity(s);
    inputs := PushHashes(s, inputs);
    inputs := inputs + [AddressValue(s.hub)];
    inputs := inputs + [s.chainId];
    inputs := inputs + [|s.url|];
    inputs := inputs + [urlChunkCount];
    inputs := inputs + [|s.endpoint|];
    inputs := inputs + [endpointChunkCount];
    assert inputs == PrefixWords(s);
    inputs := inputs + urlChunks;
    inputs := inputs + endpointChunks;
  }

  // ----- reading the statement back -----

  function ReadU64(v: U256): U64 { v % TWO_64 }

  function ReadWord(high: U256, low: U256): Word {
    ToBytes(high * TWO_128 + low, WORD_BYTES)
  }

  function ReadBytes(words: seq<U256>, length: nat): seq<byte> {
    var raw := Unchunk(words);
    if length <= |raw| then raw[..length] else raw
  }

  function ReadAddress(v: U256): Address { ToBytes(v, ADDRESS_BYTES) }

  function ReadU256(high: U256, low: U256): U256 { (high * TWO_128 + low) % TWO_256 }

  function ReadCommitment(w: seq<U256>): Commitment
    requires |w| >= PREFIX_WORDS
  {
    Commitment(
      w[0] == 1,
      ReadWord(w[1], w[2]),
      ReadU256(w[3], w[4]),
      w[5] == 1,
      ReadAddress(w[6]),
      ReadAddress(w[7]),
      ReadWord(w[9], w[10]),
      ReadWord(w[11], w[12]),
      ReadWord(w[13], w[14]),
      ReadWord(w[17], w[18]),
      ReadWord(w[19], w[20]),
      ReadU64(w[15]),
      ReadU64(w[16]),
      ReadWord(w[21], w[22]))
  }

  function ReadStatement(w: seq<U256>): Statement
    requires |w| == PREFIX_WORDS + URL_CHUNKS + ENDPOINT_CHUNKS
  {
    Statement(
      ReadCommitment(w),
      ReadAddress(w[8]),
      ReadAddress(w[23]),
      ReadU64(w[24]),
      ReadBytes(w[PREFIX_WORDS..PREFIX_WORDS + URL_CHUNKS], w[25]),
      ReadBytes(w[PREFIX_WORDS + URL_CHUNKS..], w[27]))
  }

  lemma LimbsRecombine(v: U256)
    ensures High(v) * TWO_128 + Low(v) == v
  {
  }

  lemma ReadHash(w: Word)
    ensures ReadWord(HashHigh(w), HashLow(w)) == w
  {
    LimbsRecombine(WordValue(w));
    ToFromBytes(w);
  }

  lemma ReadBid(v: U256)
    ensures ReadU256(High(v), Low(v)) == v
  {
    LimbsRecombine(v);
  }

  lemma ReadAddressBack(a: Address)
    ensures ReadAddress(AddressValue(a)) == a
  {
    ToFromBytes(a);
  }

  lemma ReadCommitmentBack(s: Statement, w: seq<U256>)
    requires Chunkable(s)
    requires |w| >= PREFIX_WORDS
    requires forall i :: 0 <= i < PREFIX_WORDS ==> w[i] == PrefixWords(s)[i]
    ensures ReadCommitment(w) == s.commitment.(llmFulfilled := true)
  {
    var c := s.commitment;
    ReadHash(c.digest);
    ReadBid(c.bidId);
    ReadAddressBack(c.client);
    ReadAddressBack(c.fulfiller);
    ReadHash(c.queryHash);
    ReadHash(c.shapeHash);
    ReadHash(c.modelHash);
    ReadHash(c.inputDataHash);
    ReadHash(c.responseId);
    ReadHash(c.callbackHash);
  }

  lemma ReadBytesBack(raw: seq<byte>, count: nat)
    requires FitsChunks(raw, count)
    ensures ReadBytes(ChunkWords(raw, count), |raw|) == raw
  {
    ChunkRoundTrip(raw, count);
  }

  /** Every field but `llmFulfilled` is read back from the words; that one always reads true. */
  lemma ReadsBack(s: Statement)
    requires Chunkable(s)
    ensures |PublicInputs(s)| == PREFIX_WORDS + URL_CHUNKS + ENDPOINT_CHUNKS
    ensures ReadStatement(PublicInputs(s)) == s.(commitment := s.commitment.(llmFulfilled := true))
  {
    var w := PublicInputs(s);
    ReadCommitmentBack(s, w);
    ReadAddressBack(s.attestor);
    ReadAddressBack(s.hub);
    assert w[PREFIX_WORDS..PREFIX_WORDS + URL_CHUNKS] == ChunkWords(s.url, URL_CHUNKS);
    assert w[PREFIX_WORDS + URL_CHUNKS..] == ChunkWords(s.endpoint, ENDPOINT_CHUNKS);
    ReadBytesBack(s.url, URL_CHUNKS);
    ReadBytesBack(s.endpoint, ENDPOINT_CHUNKS);
  }

  /** Every public word fits a field element: it is below 2^248. */
  lemma WordsAreSmall(s: Statement)
    requires Chunkable(s)
    ensures forall i :: 0 <= i < |PublicInputs(s)| ==> PublicInputs(s)[i] < TWO_248
  {
    forall i | 0 <= i < PREFIX_WORDS
      ensures PrefixWords(s)[i] < TWO_248
    {
    }
  }

  // ----- packing -----

  function Pack(words: seq<U256>): (out: seq<byte>)
    ensures |out| == WORD_BYTES * |words|
  {
    if words == [] then [] else Pack(words[..|words| - 1]) + ToBytes(words[|words| - 1], WORD_BYTES)
  }

  method PackPublicInputs(publicInputs: seq<U256>) returns (out: seq<byte>)
    ensures out == Pack(publicInputs)
  {
    out := [];
    for i := 0 to |publicInputs|
      invariant out == Pack(publicInputs[..i])
    {
      assert publicInputs[..i + 1][..i] == publicInputs[..i];
      var word := ToBytes(publicInputs[i], WORD_BYTES);
      out := out + word;
    }
    assert publicInputs[..|publicInputs|] == publicInputs;
  }

  function Unpack(data: seq<byte>): seq<nat> {
    if |data| < WORD_BYTES then []
    else Unpack(data[..|data| - WORD_BYTES]) + [FromBytes(data[|data| - WORD_BYTES..])]
  }

  /** Packing loses nothing. */
  lemma {:induction false} PackRoundTrip(words: seq<U256>)
    ensures Unpack(Pack(words)) == words
  {
    if words != [] {
      var n := |words| - 1;
      var init, last := Pack(words[..n]), ToBytes(words[n], WORD_BYTES);
      PackRoundTrip(words[..n]);
      Pow256Values();
      FromToBytes(words[n], WORD_BYTES);
      assert (init + last)[..|init|] == init && (init + last)[|init|..] == last;
      assert words == words[..n] + [words[n]];
    }
  }

  /** The packed bytes determine the statement exactly up to `llmFulfilled`. */
  lemma PackedDetermines(s: Statement, t: Statement)
    requires Chunkable(s) && Chunkable(t)
    ensures Pack(PublicInputs(s)) == Pack(PublicInputs(t))
       <==> s == t.(commitment := t.commitment.(llmFulfilled := s.commitment.llmFulfilled))
  {
    if Pack(PublicInputs(s)) == Pack(PublicInputs(t)) {
      PackRoundTrip(PublicInputs(s));
      PackRoundTrip(PublicInputs(t));
      ReadsBack(s);
      ReadsBack(t);
      SameButFlag(s, t);
    }
  }

  lemma SameButFlag(s: Statement, t: Statement)
    requires s.(commitment := s.commitment.(llmFulfilled := true)) == t.(commitment := t.commitment.(llmFulfilled := true))
    ensures s == t.(commitment := t.commitment.(llmFulfilled := s.commitment.llmFulfilled))
  {
    var c, d := s.commitment, t.commitment;
    assert c.(llmFulfilled := true) == d.(llmFulfilled := true);
    assert c == d.(llmFulfilled := c.llmFulfilled);
  }
}
